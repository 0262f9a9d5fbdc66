/**
 The room-listing filter of main.js: a capacity and a type selector, one card per room,
 and an empty-state message shown when no card passes.
 */
module RoomFilter {
  import opened Wrappers

  /** The selector value that matches every card. */
  const ALL: string := "all"

  /** A room card: its `data-capacity` (always present) and its `data-type`, if any. */
  datatype Card = Card(capacity: string, kind: Option<string>)

  /** A selector's value, or "all" when the selector is missing from the page. */
  function Selection(select: Option<string>): string {
    select.GetOr(ALL)
  }

  /** A card passes when each selector is "all" or equals the card's attribute. */
  predicate Shows(cap: string, kind: string, card: Card) {
    (cap == ALL || cap == card.capacity) && (kind == ALL || Some(kind) == card.kind)
  }

  /** The number of cards of `cards` that pass the filter. */
  function CountShown(cards: seq<Card>, cap: string, kind: string): (r: nat)
    ensures r <= |cards|
  {
    if |cards| == 0 then 0
    else CountShown(cards[..|cards| - 1], cap, kind) + (if Shows(cap, kind, cards[|cards| - 1]) then 1 else 0)
  }

  /** No card passes exactly when the count is zero. */
  lemma {:induction false} CountZeroIff(cards: seq<Card>, cap: string, kind: string)
    ensures CountShown(cards, cap, kind) == 0 <==> forall i | 0 <= i < |cards| :: !Shows(cap, kind, cards[i])
  {
    if |cards| > 0 {
      var init := cards[..|cards| - 1];
      CountZeroIff(init, cap, kind);
      assert forall i | 0 <= i < |init| :: init[i] == cards[i];
    }
  }

  /** With both selectors on "all", every card is shown. */
  lemma {:induction false} AllShowsEverything(cards: seq<Card>)
    ensures forall c: Card :: Shows(ALL, ALL, c)
    ensures CountShown(cards, ALL, ALL) == |cards|
  {
    if |cards| > 0 {
      AllShowsEverything(cards[..|cards| - 1]);
    }
  }

  /**
   What `applyRoomFilter` leaves on the page: whether each card is displayed, the visible
   count, and whether the empty-state message is displayed (None when the page has none).
   */
  datatype FilterView = FilterView(shown: seq<bool>, visibleCount: nat, emptyState: Option<bool>)

  /** `applyRoomFilter`; None when the page has no room cards, which leaves everything as it was. */
  method ApplyRoomFilter(cards: seq<Card>, capSelect: Option<string>, typeSelect: Option<string>, hasEmptyState: bool)
    returns (view: Option<FilterView>)
    ensures view.None? <==> |cards| == 0
    ensures view.Some? ==> |view.value.shown| == |cards|
    ensures view.Some? ==>
      forall i | 0 <= i < |cards| :: view.value.shown[i] <==> Shows(Selection(capSelect), Selection(typeSelect), cards[i])
    ensures view.Some? ==> view.value.visibleCount == CountShown(cards, Selection(capSelect), Selection(typeSelect))
    ensures view.Some? ==> (view.value.emptyState.Some? <==> hasEmptyState)
    ensures view.Some? && hasEmptyState ==>
      (view.value.emptyState.value <==> forall i | 0 <= i < |cards| :: !view.value.shown[i])
  {
    if |cards| == 0 {
      return None;
    }
    var cap := Selection(capSelect);
    var kind := Selection(typeSelect);
    var shown: seq<bool> := [];
    var visibleCount: nat := 0;
    var i := 0;
    while i < |cards|
      invariant 0 <= i <= |cards|
      invariant |shown| == i
      invariant forall j | 0 <= j < i :: shown[j] <==> Shows(cap, kind, cards[j])
      invariant visibleCount == CountShown(cards[..i], cap, kind)
    {
      var show := Shows(cap, kind, cards[i]);
      shown := shown + [show];
      if show {
        visibleCount := visibleCount + 1;
      }
      assert cards[..i + 1][..i] == cards[..i];
      i := i + 1;
    }
    assert cards[..i] == cards;
    CountZeroIff(cards, cap, kind);
    var emptyState := if hasEmptyState then Some(visibleCount == 0) else None;
    return Some(FilterView(shown, visibleCount, emptyState));
  }
}
