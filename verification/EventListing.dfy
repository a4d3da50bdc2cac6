/** The listing, told from the events alone. */
module EventListing {
  import opened Optional
  import opened EventCollapse

  // Which event answers which, which rows are listed, and what they show, said of turns, tools and kinds and of nothing
  // else.

  predicate SameCall(a: Item, b: Item) {
    a.row.turn == b.row.turn && a.tool == b.tool
  }

  /** A Post answers an earlier Pre of its turn and tool that nothing has answered, if all older ones have been. */
  ghost predicate Answers(es: seq<Item>, j: nat, i: nat)
    requires j < |es| && i < |es|
    decreases i
  {
    && j < i && es[j].row.kind == Pre && es[i].row.kind == Post && SameCall(es[j], es[i])
    && (forall h :: 0 <= h < i ==> !Answers(es, j, h))
    && forall older :: 0 <= older < j && es[older].row.kind == Pre && SameCall(es[older], es[i]) ==>
         exists h :: 0 <= h < i && Answers(es, older, h)
  }

  /** Main result: the first-in, first-out queues pair just these. */
  lemma {:induction false} PairsExactly(es: seq<Item>, j: nat, i: nat)
    requires j < |es| && i < |es|
    ensures Pairs(es, j, i) <==> Answers(es, j, i)
    decreases i
  {
    forall a: nat, h: nat | a < |es| && h < i ensures Pairs(es, a, h) <==> Answers(es, a, h) {
      PairsExactly(es, a, h);
    }
    if j < i && es[i].row.kind == Post {
      AnswersOldestOpen(es, j, i);
      OldestExactly(es, j, i);
    }
  }

  lemma OldestExactly(es: seq<Item>, j: nat, i: nat)
    requires j < i < |es| && es[i].row.kind == Post
    requires forall a: nat, h: nat :: a < |es| && h < i ==> (Pairs(es, a, h) <==> Answers(es, a, h))
    ensures OldestOpen(es, KeyOf(es[i]), j, i) <==> Answers(es, j, i)
  {
    forall a | 0 <= a < i ensures Open(es, a, i) <==> forall h :: 0 <= h < i ==> !Answers(es, a, h) {
      if h :| 0 <= h < i && Answers(es, a, h) { assert Pairs(es, a, h); }
      if h :| 0 <= h < i && Pairs(es, a, h) { assert Answers(es, a, h); }
    }
    forall a | 0 <= a < i
      ensures IsPre(es[a], KeyOf(es[i])) <==> es[a].row.kind == Pre && SameCall(es[a], es[i])
    {
    }
  }

  /** The places of the events that answer nothing, in order. */
  ghost predicate ListedPlaces(es: seq<Item>, places: seq<nat>) {
    && (forall r :: 0 <= r < |places| ==> places[r] < |es|)
    && (forall r, s :: 0 <= r < s < |places| ==> places[r] < places[s])
    && forall i: nat :: i < |es| ==> (i in places <==> forall j: nat :: j < |es| ==> !Answers(es, j, i))
  }

  /** An answered Pre is listed as its answer, every other event as itself. */
  ghost predicate ListedAs(es: seq<Item>, i: nat, row: Row)
    requires i < |es|
  {
    || (exists p: nat :: p < |es| && Answers(es, i, p) && row == es[p].row)
    || ((forall p: nat :: p < |es| ==> !Answers(es, i, p)) && row == es[i].row)
  }

  /** Main result: there is one row for each event that answers nothing, in order, and it is listed so. */
  lemma RowsExactly(es: seq<Item>, rows: seq<Row>) returns (places: seq<nat>)
    requires Lists(es, |es|, rows)
    ensures ListedPlaces(es, places) && |rows| == |places|
    ensures forall r :: 0 <= r < |rows| ==> ListedAs(es, places[r], rows[r])
  {
    places := Opened(es, |es|);
    OpenedAt(es, |es|);
    forall i: nat | i < |es| ensures i in places <==> forall j: nat :: j < |es| ==> !Answers(es, j, i) {
      MatchedExactly(es, i);
    }
    forall r | 0 <= r < |rows| ensures ListedAs(es, places[r], rows[r]) {
      ShownExactly(es, places[r]);
    }
  }

  lemma MatchedExactly(es: seq<Item>, i: nat)
    requires i < |es|
    ensures Matched(es, i) <==> exists j: nat :: j < |es| && Answers(es, j, i)
  {
    if Matched(es, i) {
      var j := MatchedHasPartner(es, i);
      PairsExactly(es, j, i);
    }
    if j: nat :| j < |es| && Answers(es, j, i) {
      PairsExactly(es, j, i);
    }
  }

  lemma ShownExactly(es: seq<Item>, i: nat)
    requires i < |es|
    ensures ListedAs(es, i, Shown(es, i, |es|))
  {
    if p: nat :| p < |es| && Answers(es, i, p) {
      PairsExactly(es, i, p);
      ShownAnswer(es, i, p, |es|);
    } else {
      forall p | 0 <= p < |es| ensures !Pairs(es, i, p) { PairsExactly(es, i, p); }
      ShownWhileOpen(es, i, |es|);
    }
  }

  // ----- turns -----

  /** The event falls between the start of the turn and that of the next in the list. */
  predicate FallsIn(at: int, turns: seq<Turn>, i: int) {
    0 <= i < |turns| && turns[i].startedAt <= at && (i + 1 < |turns| ==> at < turns[i + 1].startedAt)
  }

  /** Main result: an event belongs to the first turn it falls in, and to none if there is none. */
  lemma TurnExactly(at: int, turns: seq<Turn>)
    ensures TurnAt(at, WindowsOf(turns)) == None <==> forall i :: !FallsIn(at, turns, i)
    ensures forall i :: FallsIn(at, turns, i) && (forall k :: 0 <= k < i ==> !FallsIn(at, turns, k)) ==>
              TurnAt(at, WindowsOf(turns)) == Some(turns[i].num)
  {
    var ws := WindowsOf(turns);
    forall i | 0 <= i < |turns| ensures Within(at, ws[i]) <==> FallsIn(at, turns, i) {
    }
    NoneWithin(at, ws);
    forall i | FallsIn(at, turns, i) && forall k :: 0 <= k < i ==> !FallsIn(at, turns, k)
      ensures TurnAt(at, ws) == Some(turns[i].num)
    {
      FirstWithin(at, ws, i);
    }
  }

  lemma {:induction false} NoneWithin(at: int, ws: seq<Window>)
    ensures TurnAt(at, ws) == None <==> forall i :: 0 <= i < |ws| ==> !Within(at, ws[i])
  {
    if ws != [] {
      NoneWithin(at, ws[1..]);
      assert forall i :: 1 <= i < |ws| ==> ws[i] == ws[1..][i - 1];
      assert forall i :: 0 <= i < |ws[1..]| ==> ws[1..][i] == ws[i + 1];
    }
  }

  /** What is listed of an event, and the tool it is paired by, are its own. */
  lemma ItemsAre(events: seq<Event>, turns: seq<Turn>, i: nat)
    requires i < |events|
    ensures var (e, item) := (events[i], ItemsOf(events, WindowsOf(turns))[i]);
      && item.row == Row(e.id, e.kind, e.at, e.summary, TurnAt(e.at, WindowsOf(turns))) && item.tool == e.tool
  {
  }
}
