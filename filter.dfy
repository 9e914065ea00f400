/** The destination filter of js/script.js: buttons carrying a
    `data-filter` attribute (one of them "active") and cards carrying a
    `data-categoria` attribute, each shown (`display: block`) or hidden
    (`display: none`). A missing attribute is `None`, as `getAttribute`
    returns `null`. */
module DestinationFilter {
  import opened Wrappers
  import opened Marks

  /** The filter value that shows every card. */
  const ShowAll: string := "todos"

  /** `filter === 'todos' || categoria === filter`. */
  predicate ShouldShow(filter: Option<string>, category: Option<string>)
    ensures filter == Some(ShowAll) ==> ShouldShow(filter, category)
    ensures filter != Some(ShowAll) ==> (ShouldShow(filter, category) <==> category == filter)
  {
    filter == Some(ShowAll) || category == filter
  }

  /** Visibility of every card under a filter. */
  function Visibility(filter: Option<string>, categories: seq<Option<string>>): (r: seq<bool>)
    ensures |r| == |categories|
    ensures forall k :: 0 <= k < |r| ==> r[k] == ShouldShow(filter, categories[k])
  {
    seq(|categories|, k requires 0 <= k < |categories| => ShouldShow(filter, categories[k]))
  }

  /** "todos" shows every card; any other filter shows exactly the cards
      tagged with it (a card without the attribute matches only a button
      without one). */
  lemma VisibilityMeaning(filter: Option<string>, categories: seq<Option<string>>)
    ensures filter == Some(ShowAll) ==> CountActive(Visibility(filter, categories)) == |categories|
    ensures filter != Some(ShowAll) ==>
      forall k :: 0 <= k < |categories| ==> (Visibility(filter, categories)[k] <==> categories[k] == filter)
  {
    if filter == Some(ShowAll) {
      AllShownCount(filter, categories);
    }
  }

  lemma {:induction false} AllShownCount(filter: Option<string>, categories: seq<Option<string>>)
    requires filter == Some(ShowAll)
    ensures CountActive(Visibility(filter, categories)) == |categories|
  {
    if categories != [] {
      var n := |categories|;
      assert Visibility(filter, categories)[..n - 1] == Visibility(filter, categories[..n - 1]);
      AllShownCount(filter, categories[..n - 1]);
    }
  }

  class Filter {
    const buttonFilters: seq<Option<string>>
    const buttonActive: array<bool>
    const categories: seq<Option<string>>
    const shown: array<bool>
    /** Whether `initDestinosFilter` installed the click handlers. */
    const wired: bool

    ghost predicate Valid()
      reads this
    {
      buttonActive != shown &&
      buttonActive.Length == |buttonFilters| &&
      shown.Length == |categories| &&
      wired == (|buttonFilters| > 0 && |categories| > 0)
    }

    /** `initDestinosFilter` on the buttons and cards of the markup, with
        their initial classes and display. */
    constructor (filters: seq<Option<string>>, active: seq<bool>,
                 cardCategories: seq<Option<string>>, display: seq<bool>)
      requires |active| == |filters| && |display| == |cardCategories|
      ensures Valid() && fresh(buttonActive) && fresh(shown)
      ensures buttonFilters == filters && buttonActive[..] == active
      ensures categories == cardCategories && shown[..] == display
    {
      buttonFilters := filters;
      buttonActive := new bool[|active|](i requires 0 <= i < |active| => active[i]);
      categories := cardCategories;
      shown := new bool[|display|](i requires 0 <= i < |display| => display[i]);
      wired := |filters| > 0 && |cardCategories| > 0;
    }

    /** A click on button `b`. */
    method OnButtonClick(b: nat)
      requires Valid() && b < buttonActive.Length
      modifies buttonActive, shown
      ensures Valid()
      ensures !wired ==> buttonActive[..] == old(buttonActive[..]) && shown[..] == old(shown[..])
      ensures wired ==>
        buttonActive[..] == OnlyAt(buttonActive.Length, b) &&
        shown[..] == Visibility(buttonFilters[b], categories)
    {
      if !wired {
        return;
      }
      for i := 0 to buttonActive.Length
        invariant forall k :: 0 <= k < i ==> !buttonActive[k]
        invariant shown[..] == old(shown[..])
      {
        buttonActive[i] := false;
      }
      buttonActive[b] := true;
      assert buttonActive[..] == OnlyAt(buttonActive.Length, b);
      var filter := buttonFilters[b];
      for i := 0 to shown.Length
        invariant forall k :: 0 <= k < i ==> shown[k] == ShouldShow(filter, categories[k])
        invariant buttonActive[..] == OnlyAt(buttonActive.Length, b)
      {
        shown[i] := ShouldShow(filter, categories[i]);
      }
    }
  }

  /** After a click exactly one button is active. */
  lemma ExactlyOneButtonActive(n: nat, b: nat)
    requires b < n
    ensures CountActive(OnlyAt(n, b)) == 1
  {
    CountOnlyAt(n, b);
  }
}
