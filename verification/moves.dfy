/**
 * The move list. The history is listed in its own order or reversed, and each
 * listed entry carries the move number of its original index in the history; the
 * entry last jumped to is highlighted.
 */
module Moves {
  import opened Options
  import opened Game

  /** The reversal of `xs`: position `j` holds the element `j` places from the end. */
  function Reverse<T>(xs: seq<T>): (r: seq<T>)
    ensures |r| == |xs|
    ensures forall j :: 0 <= j < |xs| ==> r[j] == xs[|xs| - 1 - j]
  {
    if |xs| == 0 then [] else Reverse(xs[1..]) + [xs[0]]
  }

  /** Reversing twice gives the sequence back. */
  lemma ReverseInvolution<T>(xs: seq<T>)
    ensures Reverse(Reverse(xs)) == xs
  {
  }

  /** One listed entry: its move number, the entry shown, and whether it is highlighted. */
  datatype Move = Move(number: nat, entry: Entry, highlighted: bool)

  /** The move list in display order. */
  function MoveList(s: State): (r: seq<Move>)
    ensures |r| == |s.history|
    ensures forall pos :: 0 <= pos < |r| ==>
              r[pos].number < |s.history| && r[pos].entry == s.history[r[pos].number]
    ensures forall pos :: 0 <= pos < |r| ==>
              r[pos].number == (if s.sortDescending then |r| - 1 - pos else pos)
    ensures forall pos :: 0 <= pos < |r| ==>
              (r[pos].highlighted <==> s.selectedButton == Some(r[pos].number))
  {
    var shown := if s.sortDescending then Reverse(s.history) else s.history;
    seq(|shown|, pos requires 0 <= pos < |shown| =>
      var move := if s.sortDescending then |shown| - pos - 1 else pos;
      Move(move, shown[pos], s.selectedButton == Some(move)))
  }

  /** The list shows every entry exactly once: entry `k` sits at one position, under number `k`. */
  lemma EachEntryListedOnce(s: State, k: nat)
    requires k < |s.history|
    ensures var r := MoveList(s);
            var pos := if s.sortDescending then |s.history| - 1 - k else k;
            && r[pos].number == k && r[pos].entry == s.history[k]
            && forall p :: 0 <= p < |r| && r[p].number == k ==> p == pos
  {
  }

  /**
   * Flipping the order reverses the list and keeps each entry's move number, so a
   * number names the same entry in both orders.
   */
  lemma ToggleReversesList(s: State)
    ensures MoveList(ToggleSort(s)) == Reverse(MoveList(s))
  {
  }
}
