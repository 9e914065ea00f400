/** The group-trip planning page of js/planejamento.js: the date inputs and
    their guard (`initDatePicker`), the group form (`initFormGrupoViagem`),
    the modal (`initModalControl`) and the calculator's input and output
    fields (`calcularDivisaoCustos`). Dates are day numbers; `None` is an
    empty or unparseable date, for which `new Date(..)` is NaN. */
module Planning {
  import opened Wrappers
  import opened CostCalculator

  /** Days between the start date and the earliest end date allowed. */
  const MinTripDays: int := 7

  /** The end date after a start-date change: an end date before
      start + 7 is moved to exactly start + 7; a later one, or an empty or
      invalid one (a NaN comparison is false), stays as it is. */
  function GuardedEnd(start: int, end: Option<int>): (r: Option<int>)
    ensures r.None? <==> end.None?
    ensures r.Some? ==> r.value >= start + MinTripDays
    ensures end.Some? && end.value >= start + MinTripDays ==> r == end
    ensures end.Some? && end.value < start + MinTripDays ==> r == Some(start + MinTripDays)
  {
    if end.Some? && end.value < start + MinTripDays then Some(start + MinTripDays) else end
  }

  /** `new Date(dataFim) <= new Date(dataInicio)`: true only when both dates
      parse. */
  predicate EndNotAfterStart(start: Option<int>, end: Option<int>)
    ensures EndNotAfterStart(start, end) ==> start.Some? && end.Some?
    ensures start.Some? && end.Some? ==>
      (EndNotAfterStart(start, end) <==> end.value <= start.value)
  {
    start.Some? && end.Some? && end.value <= start.value
  }

  datatype GroupOutcome =
    | DatesRejected   // message shown; form and modal left as they are
    | Created(name: string, people: string, start: Option<int>, end: Option<int>)

  /** `value || default`. */
  function OrDefault(value: string, default: string): (r: string)
    ensures r == "" <==> value == "" && default == ""
    ensures value != "" ==> r == value
    ensures value == "" ==> r == default
  {
    if value != "" then value else default
  }

  /** The submit handler's decision. A missing field reads as empty. */
  function SubmitGroup(name: string, people: string, start: Option<int>, end: Option<int>): (r: GroupOutcome)
    ensures r == DatesRejected <==> EndNotAfterStart(start, end)
    ensures r.Created? ==> r.name == name && r.start == start && r.end == end
    ensures r.Created? ==> r.people != "" && (people != "" ==> r.people == people)
    ensures r.Created? && people == "" ==> r.people == "0"
  {
    if EndNotAfterStart(start, end) then DatesRejected
    else Created(OrDefault(name, ""), OrDefault(people, "0"), start, end)
  }

  /** An empty or invalid date passes the order check, whatever the other. */
  lemma MissingDateSlipsThrough(name: string, people: string, start: Option<int>, end: Option<int>)
    requires start.None? || end.None?
    ensures SubmitGroup(name, people, start, end).Created?
  {
  }

  /** Submitting with an empty count reports "0" people. */
  lemma EmptyCountReportsZero(name: string, start: Option<int>, end: Option<int>)
    requires !EndNotAfterStart(start, end)
    ensures SubmitGroup(name, "", start, end).people == "0"
  {
  }

  /** The guard and the submit check agree: once the guard has run for a
      valid start date, the dates it leaves are never rejected. */
  lemma GuardedDatesAccepted(start: int, end: Option<int>)
    ensures !EndNotAfterStart(Some(start), GuardedEnd(start, end))
  {
  }

  class Page {
    /** The date inputs: values and the end date's `min`. */
    var startDate: Option<int>
    var endDate: Option<int>
    var endMin: int
    /** The other group-form fields, as raw text. */
    var groupName: string
    var groupPeople: string
    /** Whether the modal overlay is displayed (`flex`) or hidden (`none`). */
    var modalVisible: bool
    /** The calculator's inputs, parsed, and the shares on display. */
    var totalInput: Option<real>
    var peopleInput: Option<int>
    var extrasInput: Option<real>
    var display: Option<Shares>

    /** The page after its `DOMContentLoaded` handler: the date minimum is
        today, the modal is as the markup has it, and the calculator has run
        once. */
    constructor (today: int, modalShown: bool,
                 total: Option<real>, people: Option<int>, extras: Option<real>)
      ensures startDate == None && endDate == None && endMin == today
      ensures groupName == "" && groupPeople == "" && modalVisible == modalShown
      ensures totalInput == total && extrasInput == extras
      ensures Calculate(total, people, extras) == ResetPeople ==>
        peopleInput == Some(1) && display == None
      ensures Calculate(total, people, extras).Computed? ==>
        peopleInput == people && display == Some(Calculate(total, people, extras).shares)
    {
      startDate, endDate, endMin := None, None, today;
      groupName, groupPeople := "", "";
      modalVisible := modalShown;
      totalInput, peopleInput, extrasInput := total, people, extras;
      display := None;
      new;
      Recalculate();
    }

    /** The visitor picks a start date and the `change` handler runs. */
    method OnStartDateChange(picked: Option<int>)
      modifies this
      ensures startDate == picked
      ensures picked.None? ==> endMin == old(endMin) && endDate == old(endDate)
      ensures picked.Some? ==>
        endMin == picked.value + MinTripDays && endDate == GuardedEnd(picked.value, old(endDate))
      ensures groupName == old(groupName) && groupPeople == old(groupPeople)
      ensures modalVisible == old(modalVisible)
      ensures totalInput == old(totalInput) && peopleInput == old(peopleInput)
      ensures extrasInput == old(extrasInput) && display == old(display)
    {
      startDate := picked;
      if picked.None? {
        return;
      }
      var min := picked.value + MinTripDays;
      endMin := min;
      if endDate.Some? && endDate.value < min {
        endDate := Some(min);
      }
    }

    /** The group form is submitted. */
    method SubmitGroupForm() returns (outcome: GroupOutcome)
      modifies this
      ensures outcome == SubmitGroup(old(groupName), old(groupPeople), old(startDate), old(endDate))
      ensures outcome == DatesRejected ==>
        startDate == old(startDate) && endDate == old(endDate) &&
        groupName == old(groupName) && groupPeople == old(groupPeople) &&
        modalVisible == old(modalVisible)
      ensures outcome.Created? ==>
        startDate == None && endDate == None && groupName == "" && groupPeople == "" &&
        !modalVisible
      ensures endMin == old(endMin)
      ensures totalInput == old(totalInput) && peopleInput == old(peopleInput)
      ensures extrasInput == old(extrasInput) && display == old(display)
    {
      outcome := SubmitGroup(groupName, groupPeople, startDate, endDate);
      if outcome.Created? {
        startDate, endDate, groupName, groupPeople := None, None, "", "";
        modalVisible := false;
      }
    }

    /** A click on any `.btn-abrir-modal-grupo` button. */
    method OnOpenClick()
      modifies this`modalVisible
      ensures modalVisible
    {
      modalVisible := true;
    }

    /** A click on the close (X) or cancel button. */
    method OnCloseClick()
      modifies this`modalVisible
      ensures !modalVisible
    {
      modalVisible := false;
    }

    /** A click that reaches the overlay: it hides the modal only when the
        overlay itself is the target, not one of its children. */
    method OnOverlayClick(targetIsOverlay: bool)
      modifies this`modalVisible
      ensures modalVisible == (old(modalVisible) && !targetIsOverlay)
    {
      if targetIsOverlay {
        modalVisible := false;
      }
    }

    /** `calcularDivisaoCustos`, run on every input event. */
    method Recalculate()
      modifies this`peopleInput, this`display
      ensures Calculate(totalInput, old(peopleInput), extrasInput) == ResetPeople ==>
        peopleInput == Some(1) && display == old(display)
      ensures Calculate(totalInput, old(peopleInput), extrasInput).Computed? ==>
        peopleInput == old(peopleInput) &&
        display == Some(Calculate(totalInput, old(peopleInput), extrasInput).shares)
    {
      match Calculate(totalInput, peopleInput, extrasInput)
      case ResetPeople =>
        peopleInput := Some(1);
      case Computed(shares) =>
        display := Some(shares);
    }
  }
}
