/** The fee of a transaction, in the 128-bit fixed-point numbers (18 decimals) the source uses. */
module Fee {
  import opened Basics

  const DIV: nat := 1_000_000_000_000_000_000
  const U128_BOUND: nat := 0x1_0000_0000_0000_0000_0000_0000_0000_0000

  const GAS_USAGE := "l1_gas_usage"

  /** L1 gas per unit of each VM resource, scaled by 10^18. */
  const VM_RESOURCE_FEE_COSTS: map<string, nat> := map[
    "n_steps" := 10_000_000_000_000_000,
    "pedersen_builtin" := 320_000_000_000_000_000,
    "range_check_builtin" := 160_000_000_000_000_000,
    "ecdsa_builtin" := 20_480_000_000_000_000_000,
    "bitwise_builtin" := 640_000_000_000_000_000,
    "poseidon_builtin" := 320_000_000_000_000_000,
    "ec_op_builtin" := 10_240_000_000_000_000_000]

  datatype Result<T> =
    | Ok(value: T)
    | ResourceNotInFeeCosts
    | FixedPointConversion
    | Overflow  // an unchecked fixed-point operation leaves the 128-bit range

  function FromInteger(n: nat): Result<nat> {
    if n * DIV < U128_BOUND then Ok(n * DIV) else FixedPointConversion
  }

  function Mul(a: nat, b: nat): Result<nat> {
    if a * b / DIV < U128_BOUND then Ok(a * b / DIV) else Overflow
  }

  function Ceil(a: nat): nat {
    if a % DIV == 0 then a else a - a % DIV + DIV
  }

  type Usage = map<string, nat>

  type Costs = map<string, nat>

  predicate AllPriced(costs: Costs, usage: Usage) {
    forall k | k in usage :: k in costs
  }

  /** The L1 gas a resource stands for, scaled by 10^18. */
  function Weight(costs: Costs, usage: Usage, k: string): nat
    requires k in usage && k in costs
  {
    costs[k] * usage[k]
  }

  /** `g` is the largest of the weighted usages, or zero when nothing is used. */
  ghost predicate IsHeaviest(costs: Costs, usage: Usage, g: nat)
    requires AllPriced(costs, usage)
  {
    && (forall k | k in usage :: Weight(costs, usage, k) <= g)
    && (g == 0 || exists k | k in usage :: Weight(costs, usage, k) == g)
  }

  ghost predicate Fits(costs: Costs, usage: Usage, k: string)
    requires k in usage && k in costs
  {
    usage[k] * DIV < U128_BOUND && Weight(costs, usage, k) < U128_BOUND
  }

  ghost predicate Representable(costs: Costs, usage: Usage)
    requires AllPriced(costs, usage)
  {
    forall k | k in usage :: Fits(costs, usage, k)
  }

  /** Some enumeration of the keys of a hash map, each once. */
  ghost predicate Enumerates(order: seq<string>, usage: Usage) {
    (forall k :: k in order <==> k in usage) && forall i, j | 0 <= i < j < |order| :: order[i] != order[j]
  }

  lemma {:induction false} WeightedUsage(cost: nat, n: nat)
    ensures cost * (n * DIV) / DIV == cost * n
  {
    assert cost * (n * DIV) == (cost * n) * DIV;
  }

  /** The fixed-point product of the cost of a resource and its usage. */
  function Weighted(costs: Costs, usage: Usage, k: string): Result<nat>
    requires k in usage && k in costs
  {
    var n := FromInteger(usage[k]);
    if n.Ok? then Mul(costs[k], n.value) else n
  }

  /** The walk stops at place `i`: everything before fits and this does not. */
  ghost predicate StopsAt(costs: Costs, usage: Usage, order: seq<string>, i: nat)
    requires AllPriced(costs, usage) && i < |order| && forall k | k in order :: k in usage
  {
    (forall j | 0 <= j < i :: Fits(costs, usage, order[j])) && !Fits(costs, usage, order[i])
  }

  /** The first resource in the walk that does not fit is too large to be converted. */
  ghost predicate StopsConverting(costs: Costs, usage: Usage, order: seq<string>)
    requires AllPriced(costs, usage) && forall k | k in order :: k in usage
  {
    exists i | 0 <= i < |order| :: StopsAt(costs, usage, order, i) && usage[order[i]] * DIV >= U128_BOUND
  }

  lemma {:induction false} StopsOnce(costs: Costs, usage: Usage, order: seq<string>, i: nat)
    requires AllPriced(costs, usage) && i < |order| && forall k | k in order :: k in usage
    requires StopsAt(costs, usage, order, i)
    ensures StopsConverting(costs, usage, order) <==> usage[order[i]] * DIV >= U128_BOUND
  {
    forall j | 0 <= j < |order| && StopsAt(costs, usage, order, j) ensures j == i {
      assert !(i < j) && !(j < i);
    }
  }

  /** Usages are 64-bit numbers, and all of these can be converted: a walk that stops, stops at an
      overflow. */
  lemma {:induction false} SmallUsagesConvert(costs: Costs, usage: Usage, order: seq<string>)
    requires AllPriced(costs, usage) && forall k | k in order :: k in usage
    requires forall k | k in usage :: usage[k] < U64_BOUND
    ensures !StopsConverting(costs, usage, order)
  {
    forall i | 0 <= i < |order| ensures usage[order[i]] * DIV < U128_BOUND {
      assert order[i] in order;
    }
  }

  lemma {:induction false} WeightedIsWeight(costs: Costs, usage: Usage, k: string)
    requires k in usage && k in costs
    ensures var r := Weighted(costs, usage, k);
            && (r.Ok? <==> Fits(costs, usage, k)) && !r.ResourceNotInFeeCosts?
            && (r.FixedPointConversion? <==> usage[k] * DIV >= U128_BOUND)
            && (r.Ok? ==> r.value == Weight(costs, usage, k))
  {
    WeightedUsage(costs[k], usage[k]);
  }

  /** The heaviest VM resource.  The result does not depend on the order in which the map is walked. */
  method GasByVmUsage(costs: Costs, usage: Usage, order: seq<string>) returns (r: Result<nat>)
    requires Enumerates(order, usage)
    ensures r.ResourceNotInFeeCosts? <==> !AllPriced(costs, usage)
    ensures AllPriced(costs, usage) ==> (r.Ok? <==> Representable(costs, usage))
    ensures r.Ok? ==> IsHeaviest(costs, usage, r.value)
    ensures AllPriced(costs, usage) && !Representable(costs, usage) ==>
              r == if StopsConverting(costs, usage, order) then FixedPointConversion else Overflow
  {
    if !AllPriced(costs, usage) {
      return ResourceNotInFeeCosts;
    }
    var acc := 0;
    for i := 0 to |order|
      invariant forall j | 0 <= j < i :: Weight(costs, usage, order[j]) <= acc
      invariant acc == 0 || exists k | k in usage :: Weight(costs, usage, k) == acc
      invariant forall j | 0 <= j < i :: Fits(costs, usage, order[j])
    {
      var weighted := Weighted(costs, usage, order[i]);
      WeightedIsWeight(costs, usage, order[i]);
      if !weighted.Ok? {
        StopsOnce(costs, usage, order, i);
        return weighted;
      }
      if acc < weighted.value {
        acc := weighted.value;
      }
    }
    return Ok(acc);
  }

  /** Whole units of L1 gas charged for `gas` units plus a fixed-point amount, rounded up. */
  function GasUnits(gas: nat, vm: nat): nat {
    (gas * DIV + vm + DIV - 1) / DIV
  }

  lemma {:induction false} CeilIsGasUnits(gas: nat, vm: nat)
    ensures Ceil(gas * DIV + vm) == GasUnits(gas, vm) * DIV
  {
    var a := gas * DIV + vm;
    var q := a / DIV;
    assert a == q * DIV + a % DIV;
    if a % DIV == 0 {
      assert a + DIV - 1 == q * DIV + (DIV - 1);
      assert (a + DIV - 1) / DIV == q;
    } else {
      assert a + DIV - 1 == (q + 1) * DIV + (a % DIV - 1);
      assert (a + DIV - 1) / DIV == q + 1;
    }
  }

  lemma {:induction false} WholeFee(gas: nat, vm: nat, gasPrice: nat)
    ensures Ceil(gas * DIV + vm) * gasPrice / DIV == GasUnits(gas, vm) * gasPrice
  {
    CeilIsGasUnits(gas, vm);
    var u := GasUnits(gas, vm);
    assert (u * DIV) * gasPrice == (u * gasPrice) * DIV;
  }

  /** The fixed-point arithmetic of the fee, with its checks. */
  function Charge(gas: nat, vm: nat, gasPrice: nat): Result<nat> {
    var fixedGas := FromInteger(gas);
    if !fixedGas.Ok? then FixedPointConversion
    else
      var total := fixedGas.value + vm;
      if total >= U128_BOUND || Ceil(total) >= U128_BOUND then Overflow
      else if Ceil(total) * gasPrice / DIV >= U128_BOUND then FixedPointConversion
      else Ok(Ceil(total) * gasPrice / DIV)
  }

  lemma {:induction false} ChargeExact(gas: nat, vm: nat, gasPrice: nat)
    ensures var units := GasUnits(gas, vm);
            && (Charge(gas, vm, gasPrice).Ok? <==> units * DIV < U128_BOUND && units * gasPrice < U128_BOUND)
            && (Charge(gas, vm, gasPrice).Ok? ==> Charge(gas, vm, gasPrice).value == units * gasPrice)
            && (Charge(gas, vm, gasPrice).Overflow? <==> gas * DIV < U128_BOUND && units * DIV >= U128_BOUND)
            && !Charge(gas, vm, gasPrice).ResourceNotInFeeCosts?
  {
    WholeFee(gas, vm, gasPrice);
    CeilIsGasUnits(gas, vm);
  }

  /** The resources without the L1 gas. */
  function VmUsage(resources: Usage): Usage {
    resources - {GAS_USAGE}
  }

  /** The fee, absent overflow: the gas price times the L1 gas plus the heaviest VM resource, rounded
      up to whole gas. */
  method CalculateTxFee(resources: Usage, order: seq<string>, gasPrice: nat) returns (r: Result<nat>, ghost vm: nat)
    requires GAS_USAGE in resources && Enumerates(order, VmUsage(resources))
    ensures r.ResourceNotInFeeCosts? <==> !AllPriced(VM_RESOURCE_FEE_COSTS, VmUsage(resources))
    ensures r.Ok? ==>
              && AllPriced(VM_RESOURCE_FEE_COSTS, VmUsage(resources))
              && IsHeaviest(VM_RESOURCE_FEE_COSTS, VmUsage(resources), vm)
              && r.value == GasUnits(resources[GAS_USAGE], vm) * gasPrice
    ensures var costs, usage := VM_RESOURCE_FEE_COSTS, VmUsage(resources);
            AllPriced(costs, usage) && !Representable(costs, usage) ==>
              r == if StopsConverting(costs, usage, order) then FixedPointConversion else Overflow
    ensures var costs, usage := VM_RESOURCE_FEE_COSTS, VmUsage(resources);
            var gas := resources[GAS_USAGE];
            var units := GasUnits(gas, vm);
            AllPriced(costs, usage) && Representable(costs, usage) ==>
              && IsHeaviest(costs, usage, vm)
              && (r.Ok? <==> units * DIV < U128_BOUND && units * gasPrice < U128_BOUND)
              && (r.Overflow? <==> gas * DIV < U128_BOUND && units * DIV >= U128_BOUND)
  {
    vm := 0;
    var gas, vmUsage := resources[GAS_USAGE], VmUsage(resources);
    var byVm := GasByVmUsage(VM_RESOURCE_FEE_COSTS, vmUsage, order);
    if !byVm.Ok? {
      return byVm, 0;
    }
    vm := byVm.value;
    ChargeExact(gas, vm, gasPrice);
    r := Charge(gas, byVm.value, gasPrice);
  }

  // ---------------------------------------------------------------------------
  // What the fee means
  // ---------------------------------------------------------------------------

  /** The exact amount of L1 gas, scaled by 10^18. */
  function ExactGas(gas: nat, vm: nat): nat {
    gas * DIV + vm
  }

  lemma {:induction false} UnitsBound(gas: nat, vm: nat)
    ensures ExactGas(gas, vm) <= GasUnits(gas, vm) * DIV < ExactGas(gas, vm) + DIV
  {
    CeilIsGasUnits(gas, vm);
  }

  lemma {:induction false} ScaleBounds(a: nat, b: nat, c: nat, p: nat)
    requires a <= b < c
    ensures a * p <= b * p && (p > 0 ==> b * p < c * p)
  {
    assert (b - a) * p >= 0;
    if p > 0 {
      assert (c - b) * p > 0;
    }
  }

  /** The fee covers the exact cost and exceeds it by less than the price of one unit of gas (all
      scaled by 10^18). */
  lemma {:induction false} FeeIsTight(gas: nat, vm: nat, gasPrice: nat)
    ensures var fee, exact := GasUnits(gas, vm) * gasPrice * DIV, ExactGas(gas, vm) * gasPrice;
            exact <= fee && (gasPrice > 0 ==> fee < exact + gasPrice * DIV)
  {
    var units, exact := GasUnits(gas, vm), ExactGas(gas, vm);
    UnitsBound(gas, vm);
    ScaleBounds(exact, units * DIV, exact + DIV, gasPrice);
    Reorder(units, gasPrice, exact);
  }

  lemma {:induction false} Reorder(u: nat, p: nat, x: nat)
    ensures u * DIV * p == u * p * DIV && (x + DIV) * p == x * p + p * DIV
  {
  }

  /** Using more of anything never makes a transaction cheaper. */
  lemma {:induction false} FeeIsMonotone(costs: Costs, usage: Usage, usage': Usage, vm: nat, vm': nat, gas: nat,
                                         gas': nat, gasPrice: nat)
    requires AllPriced(costs, usage) && AllPriced(costs, usage')
    requires IsHeaviest(costs, usage, vm) && IsHeaviest(costs, usage', vm')
    requires gas <= gas' && forall k | k in usage :: k in usage' && usage[k] <= usage'[k]
    ensures vm <= vm' && GasUnits(gas, vm) * gasPrice <= GasUnits(gas', vm') * gasPrice
  {
    if vm > 0 {
      var k :| k in usage && Weight(costs, usage, k) == vm;
      MulMonotone(costs[k], usage[k], usage'[k]);
    }
    DivMonotone(gas * DIV + vm + DIV - 1, gas' * DIV + vm' + DIV - 1);
    MulMonotone(gasPrice, GasUnits(gas, vm), GasUnits(gas', vm'));
  }

  lemma {:induction false} MulMonotone(c: nat, a: nat, b: nat)
    requires a <= b
    ensures c * a <= c * b && a * c <= b * c
  {
    assert c * b - c * a == c * (b - a);
  }

  lemma {:induction false} DivMonotone(a: nat, b: nat)
    requires a <= b
    ensures a / DIV <= b / DIV
  {
  }

  /** The heaviest resource is determined by the usage alone, so the fee is the same for every
      enumeration of the map. */
  lemma {:induction false} HeaviestIsUnique(costs: Costs, usage: Usage, g: nat, g': nat)
    requires AllPriced(costs, usage) && IsHeaviest(costs, usage, g) && IsHeaviest(costs, usage, g')
    ensures g == g'
  {
    if g > 0 {
      var k :| k in usage && Weight(costs, usage, k) == g;
    }
    if g' > 0 {
      var k :| k in usage && Weight(costs, usage, k) == g';
    }
  }
}
