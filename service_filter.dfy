/**
 * The service filter of the listing page: every service card carries a
 * category and a language, and the filter shows exactly the cards that
 * agree with the category and language chosen in the filter bar, then
 * reports how many cards are shown.
 */
module ServiceFilter {
  import opened Wrappers

  /** A service card: its `data-category` and `data-language` attributes
      (None when the attribute is absent) and whether it is displayed. */
  datatype Card = Card(category: Option<string>, language: Option<string>, visible: bool)

  /** The three controls of the filter bar, each None when the control is
      not on the page. The deadline control only re-runs the filter. */
  datatype Controls = Controls(category: Option<string>, language: Option<string>, deadline: Option<string>)

  /** `value || ''`: an absent attribute or control reads as the empty string. */
  function Text(o: Option<string>): (r: string)
    ensures o.None? ==> r == ""
    ensures o.Some? ==> r == o.value
  {
    o.GetOr("")
  }

  /** One constraint of the filter: an empty selection accepts everything,
      any other selection accepts only an equal attribute. */
  predicate Accepts(selected: string, attribute: string)
  {
    selected == "" || attribute == selected
  }

  /** Whether `card` is shown under the filter bar `ctl`. */
  predicate Matches(ctl: Controls, card: Card)
  {
    Accepts(Text(ctl.category), Text(card.category)) &&
    Accepts(Text(ctl.language), Text(card.language))
  }

  /** The cards after filtering: the same cards in the same order, each
      shown exactly when it matches. */
  function Filtered(cards: seq<Card>, ctl: Controls): (r: seq<Card>)
    ensures |r| == |cards|
    ensures forall i :: 0 <= i < |cards| ==>
              r[i].category == cards[i].category && r[i].language == cards[i].language
    ensures forall i :: 0 <= i < |cards| ==> (r[i].visible <==> Matches(ctl, cards[i]))
  {
    seq(|cards|, i requires 0 <= i < |cards| => cards[i].(visible := Matches(ctl, cards[i])))
  }

  /** The number of shown cards. */
  function CountVisible(cards: seq<Card>): (r: nat)
    ensures r <= |cards|
  {
    if cards == [] then 0
    else CountVisible(cards[..|cards| - 1]) + (if cards[|cards| - 1].visible then 1 else 0)
  }

  /** The number of cards that match the filter bar, whatever they show now. */
  function CountMatching(cards: seq<Card>, ctl: Controls): (r: nat)
    ensures r <= |cards|
  {
    if cards == [] then 0
    else CountMatching(cards[..|cards| - 1], ctl) + (if Matches(ctl, cards[|cards| - 1]) then 1 else 0)
  }

  /**
   * `filterServices`: walks the cards of the grid in order, shows or hides
   * each one and counts the shown ones. With no grid on the page it does
   * nothing and reports no count.
   */
  method FilterServices(grid: array?<Card>, ctl: Controls) returns (count: Option<nat>)
    modifies grid
    ensures grid == null ==> count == None
    ensures grid != null ==> grid[..] == Filtered(old(grid[..]), ctl)
    ensures grid != null ==> count == Some(CountVisible(grid[..]))
  {
    if grid == null {
      return None;
    }
    ghost var cards := grid[..];
    var visibleCount := 0;
    var i := 0;
    while i < grid.Length
      invariant 0 <= i <= grid.Length
      invariant grid[..i] == Filtered(cards, ctl)[..i]
      invariant grid[i..] == cards[i..]
      invariant visibleCount == CountVisible(grid[..i])
    {
      var card := grid[i];
      var categoryMatch := Accepts(Text(ctl.category), Text(card.category));
      var languageMatch := Accepts(Text(ctl.language), Text(card.language));
      if categoryMatch && languageMatch {
        grid[i] := card.(visible := true);
        visibleCount := visibleCount + 1;
      } else {
        grid[i] := card.(visible := false);
      }
      assert grid[..i + 1][..i] == grid[..i];
      i := i + 1;
    }
    assert grid[..] == grid[..i];
    count := Some(visibleCount);
  }

  /** The reported count is the number of matching cards. */
  lemma {:induction false} FilteredCount(cards: seq<Card>, ctl: Controls)
    ensures CountVisible(Filtered(cards, ctl)) == CountMatching(cards, ctl)
  {
    if cards != [] {
      var n := |cards| - 1;
      assert Filtered(cards, ctl)[..n] == Filtered(cards[..n], ctl);
      FilteredCount(cards[..n], ctl);
    }
  }

  /** Filtering twice with the same filter bar changes nothing more. */
  lemma FilterIdempotent(cards: seq<Card>, ctl: Controls)
    ensures Filtered(Filtered(cards, ctl), ctl) == Filtered(cards, ctl)
  {
  }

  /** The flags before filtering play no part: cards that differ only in
      what they show come out the same. */
  lemma FilterIgnoresVisibility(cards: seq<Card>, other: seq<Card>, ctl: Controls)
    requires |cards| == |other|
    requires forall i :: 0 <= i < |cards| ==>
               cards[i].category == other[i].category && cards[i].language == other[i].language
    ensures Filtered(cards, ctl) == Filtered(other, ctl)
  {
  }

  /** With no category and no language chosen every card is shown. */
  lemma {:induction false} NoSelectionShowsAll(cards: seq<Card>, ctl: Controls)
    requires Text(ctl.category) == "" && Text(ctl.language) == ""
    ensures forall i :: 0 <= i < |cards| ==> Filtered(cards, ctl)[i].visible
    ensures CountMatching(cards, ctl) == |cards|
  {
    if cards != [] {
      NoSelectionShowsAll(cards[..|cards| - 1], ctl);
    }
  }

  /** The deadline control does not take part in the decision. */
  lemma DeadlineIrrelevant(cards: seq<Card>, ctl: Controls, deadline: Option<string>)
    ensures Filtered(cards, ctl.(deadline := deadline)) == Filtered(cards, ctl)
  {
  }

  /** An essay card in Indonesian and a code card in English, filtered on
      the category "code": only the second card is shown. */
  lemma TwoCardExample()
    ensures var cards := [Card(Some("essay"), Some("id"), true), Card(Some("code"), Some("en"), true)];
            var ctl := Controls(Some("code"), Some(""), None);
            var r := Filtered(cards, ctl);
            !r[0].visible && r[1].visible && CountVisible(r) == 1
  {
  }
}
