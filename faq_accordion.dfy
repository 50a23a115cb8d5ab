/**
 * The FAQ accordion: a list of questions, each open (`active`) or closed.
 * A click on a question closes every item and then opens the clicked one,
 * unless it was the one already open.
 */
module FaqAccordion {

  /** The flags after a click on item `i` of `active`. */
  function AfterClick(active: seq<bool>, i: nat): (r: seq<bool>)
    requires i < |active|
    ensures |r| == |active|
    ensures forall j :: 0 <= j < |r| && j != i ==> !r[j]
    ensures r[i] == !active[i]
  {
    seq(|active|, j requires 0 <= j < |active| => j == i && !active[i])
  }

  /** The number of open items. */
  function OpenCount(active: seq<bool>): (r: nat)
    ensures r <= |active|
  {
    if active == [] then 0
    else OpenCount(active[..|active| - 1]) + (if active[|active| - 1] then 1 else 0)
  }

  /** At most one item is open. */
  predicate AtMostOneOpen(active: seq<bool>)
  {
    forall j, k :: 0 <= j < k < |active| ==> !(active[j] && active[k])
  }

  /**
   * The click handler of question `i`: remember whether it was open,
   * close every item, then open item `i` if it was closed.
   */
  method Click(active: array<bool>, i: nat)
    requires i < active.Length
    modifies active
    ensures active[..] == AfterClick(old(active[..]), i)
  {
    var isActive := active[i];
    var j := 0;
    while j < active.Length
      invariant 0 <= j <= active.Length
      invariant forall k :: 0 <= k < j ==> !active[k]
      invariant forall k :: j <= k < active.Length ==> active[k] == old(active[k])
    {
      active[j] := false;
      j := j + 1;
    }
    if !isActive {
      active[i] := true;
    }
  }

  /** When only item `i` may be open, it is the only one counted. */
  lemma {:induction false} OpenCountOnly(active: seq<bool>, i: nat)
    requires i < |active|
    requires forall j :: 0 <= j < |active| && j != i ==> !active[j]
    ensures OpenCount(active) == if active[i] then 1 else 0
  {
    var n := |active| - 1;
    if n == i {
      OpenCountNone(active[..n]);
    } else {
      OpenCountOnly(active[..n], i);
    }
  }

  /** No open flag, no open item. */
  lemma {:induction false} OpenCountNone(active: seq<bool>)
    requires forall j :: 0 <= j < |active| ==> !active[j]
    ensures OpenCount(active) == 0
  {
    if active != [] {
      OpenCountNone(active[..|active| - 1]);
    }
  }

  /** After any click at most one item is open: exactly the clicked one if
      it was closed, none if it was the open one. */
  lemma ClickOpenCount(active: seq<bool>, i: nat)
    requires i < |active|
    ensures AtMostOneOpen(AfterClick(active, i))
    ensures OpenCount(AfterClick(active, i)) == if active[i] then 0 else 1
  {
    OpenCountOnly(AfterClick(active, i), i);
  }

  /** A closed item that is clicked becomes the only open item, whatever
      was open before; an open item that is clicked leaves none open. */
  lemma ClickSwitches(active: seq<bool>, i: nat)
    requires i < |active|
    ensures !active[i] ==> forall j :: 0 <= j < |active| ==> (AfterClick(active, i)[j] <==> j == i)
    ensures active[i] ==> forall j :: 0 <= j < |active| ==> !AfterClick(active, i)[j]
  {
  }

  /** Opening B while A is open closes A and opens B. */
  lemma OpenAnother(active: seq<bool>, a: nat, b: nat)
    requires a < |active| && b < |active| && a != b
    requires active[a] && !active[b]
    ensures !AfterClick(active, b)[a] && AfterClick(active, b)[b]
  {
  }
}
