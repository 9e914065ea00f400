/** The cost-splitting calculator of js/planejamento.js
    (`calcularDivisaoCustos`), over already-parsed inputs: `None` is an empty
    or unparseable field. Amounts are exact reals, an idealisation of the
    script's floating-point numbers. */
module CostCalculator {
  import opened Wrappers

  datatype Shares = Shares(perPerson: real, perPersonWithExtras: real, groupTotal: real)

  datatype Calculation =
    | ResetPeople          // negative count: the field is rewritten to 1, outputs untouched
    | Computed(shares: Shares)

  /** `parseFloat(..) || 0`: an unparseable amount counts as zero. */
  function AmountOrZero(parsed: Option<real>): (r: real)
    ensures r == 0.0 <==> parsed.None? || parsed.value == 0.0
    ensures r != 0.0 ==> parsed == Some(r)
  {
    if parsed.Some? then parsed.value else 0.0
  }

  /** `parseInt(..) || 1`: an unparseable count and a count of zero both
      become one; any other count, negative ones included, is kept. */
  function PeopleCount(parsed: Option<int>): (r: int)
    ensures r != 0
    ensures r < 0 <==> parsed.Some? && parsed.value < 0
    ensures r > 1 ==> parsed == Some(r)
    ensures parsed.Some? && parsed.value != 0 ==> r == parsed.value
  {
    if parsed.None? || parsed.value == 0 then 1 else parsed.value
  }

  /** The calculation run on every input event. */
  function Calculate(total: Option<real>, people: Option<int>, extras: Option<real>): (r: Calculation)
    ensures r == ResetPeople <==> people.Some? && people.value < 0
    ensures r.Computed? ==> PeopleCount(people) >= 1
    ensures r.Computed? ==>
      r.shares.perPerson * PeopleCount(people) as real == AmountOrZero(total) &&
      r.shares.perPersonWithExtras == r.shares.perPerson + AmountOrZero(extras)
  {
    var n := PeopleCount(people);
    if n < 1 then ResetPeople
    else
      var perPerson := AmountOrZero(total) / n as real;
      var withExtras := perPerson + AmountOrZero(extras);
      Computed(Shares(perPerson, withExtras, withExtras * n as real))
  }

  /** Over exact reals the group total is the total cost plus every
      person's extras. */
  lemma GroupTotalIsCostPlusExtras(total: Option<real>, people: Option<int>, extras: Option<real>)
    requires Calculate(total, people, extras).Computed?
    ensures Calculate(total, people, extras).shares.groupTotal ==
      AmountOrZero(total) + AmountOrZero(extras) * PeopleCount(people) as real
  {
    var n := PeopleCount(people) as real;
    assert (AmountOrZero(total) / n) * n == AmountOrZero(total);
  }

  /** After a reset the field reads 1, and the next calculation proceeds. */
  lemma ResetConverges(total: Option<real>, extras: Option<real>)
    ensures Calculate(total, Some(1), extras).Computed?
    ensures Calculate(total, Some(1), extras).shares.groupTotal ==
      AmountOrZero(total) + AmountOrZero(extras)
  {
    GroupTotalIsCostPlusExtras(total, Some(1), extras);
  }

  /** An empty or zero count is treated as one person. */
  lemma EmptyCountIsOnePerson(total: Option<real>, extras: Option<real>)
    ensures Calculate(total, None, extras) == Calculate(total, Some(0), extras)
    ensures Calculate(total, None, extras) == Calculate(total, Some(1), extras)
  {
    assert PeopleCount(None) == PeopleCount(Some(0)) == PeopleCount(Some(1)) == 1;
  }

  /** Total 300, three people, 10 extra each. */
  lemma ThreePeopleExample()
    ensures Calculate(Some(300.0), Some(3), Some(10.0)) == Computed(Shares(100.0, 110.0, 330.0))
  {
  }
}
