/** Tables of a room: who sits where, and what one pass over the waiting list makes of it. */
module Seating {
  import opened Ledger

  datatype Pair = Pair(first: Player, second: Player)

  datatype Triple = Triple(pair: Pair, third: Player)

  function PairSeats(t: Pair): multiset<Player> {
    multiset{t.first} + multiset{t.second}
  }

  function TripleSeats(t: Triple): multiset<Player> {
    multiset{t.pair.first} + multiset{t.pair.second} + multiset{t.third}
  }

  ghost function SeatsTwo(s: seq<Pair>): multiset<Player> {
    if s == [] then multiset{} else PairSeats(s[0]) + SeatsTwo(s[1..])
  }

  ghost function SeatsThree(s: seq<Triple>): multiset<Player> {
    if s == [] then multiset{} else TripleSeats(s[0]) + SeatsThree(s[1..])
  }

  function Without<T>(s: seq<T>, i: nat): seq<T>
    requires i < |s|
  {
    s[..i] + s[i + 1..]
  }

  lemma {:induction false} SeatsTwoAppend(s: seq<Pair>, t: Pair)
    ensures SeatsTwo(s + [t]) == SeatsTwo(s) + PairSeats(t)
  {
    hide PairSeats;
    if s == [] {
      assert s + [t] == [t];
    } else {
      assert (s + [t])[0] == s[0] && (s + [t])[1..] == s[1..] + [t];
      SeatsTwoAppend(s[1..], t);
    }
  }

  lemma {:induction false} SeatsThreeAppend(s: seq<Triple>, t: Triple)
    ensures SeatsThree(s + [t]) == SeatsThree(s) + TripleSeats(t)
  {
    hide TripleSeats;
    if s == [] {
      assert s + [t] == [t];
    } else {
      assert (s + [t])[0] == s[0] && (s + [t])[1..] == s[1..] + [t];
      SeatsThreeAppend(s[1..], t);
    }
  }

  lemma {:induction false} SeatsTwoWithout(s: seq<Pair>, i: nat)
    requires i < |s|
    ensures SeatsTwo(s) == SeatsTwo(Without(s, i)) + PairSeats(s[i])
  {
    hide PairSeats;
    if i == 0 {
      assert Without(s, i) == s[1..];
    } else {
      SeatsTwoWithout(s[1..], i - 1);
      assert Without(s, i)[0] == s[0] && Without(s, i)[1..] == Without(s[1..], i - 1);
    }
  }

  lemma {:induction false} SeatsThreeWithout(s: seq<Triple>, i: nat)
    requires i < |s|
    ensures SeatsThree(s) == SeatsThree(Without(s, i)) + TripleSeats(s[i])
  {
    hide TripleSeats;
    if i == 0 {
      assert Without(s, i) == s[1..];
    } else {
      SeatsThreeWithout(s[1..], i - 1);
      assert Without(s, i)[0] == s[0] && Without(s, i)[1..] == Without(s[1..], i - 1);
    }
  }

  /** Everyone waiting or at a table. */
  ghost function SeatsOf(one: seq<Player>, two: seq<Pair>, three: seq<Triple>): multiset<Player> {
    multiset(one) + SeatsTwo(two) + SeatsThree(three)
  }

  // ---------------------------------------------------------------- one pass over the waiting list

  predicate AnyGone(status: map<Player, nat>, s: seq<Player>) {
    s != [] && (Gone(status, s[0]) || AnyGone(status, s[1..]))
  }

  /** Those who have not logged out, in order. */
  function Live(status: map<Player, nat>, s: seq<Player>): seq<Player> {
    if s == [] then [] else if Gone(status, s[0]) then Live(status, s[1..]) else [s[0]] + Live(status, s[1..])
  }

  /** Those who have. */
  function Dead(status: map<Player, nat>, s: seq<Player>): seq<Player> {
    if s == [] then [] else if Gone(status, s[0]) then [s[0]] + Dead(status, s[1..]) else Dead(status, s[1..])
  }

  /** The waiting list is taken in threes; two or one may remain. */
  function Tail(s: seq<Player>): (r: seq<Player>)
    ensures |r| <= 2
  {
    if |s| > 2 then Tail(s[3..]) else s
  }

  /** Threes without a logged-out player become tables. */
  function Threes(status: map<Player, nat>, s: seq<Player>): seq<Triple> {
    if |s| > 2 then
      (if AnyGone(status, s[..3]) then [] else [Triple(Pair(s[0], s[1]), s[2])]) + Threes(status, s[3..])
    else []
  }

  /** Live players taken out together with a logged-out one are not put back. */
  function Dropped(status: map<Player, nat>, s: seq<Player>): seq<Player> {
    if |s| > 2 then
      (if AnyGone(status, s[..3]) then Live(status, s[..3]) else []) + Dropped(status, s[3..])
    else if |s| == 2 && AnyGone(status, s) then Live(status, s)
    else []
  }

  /** Some three, or the final two, holds both a logged-out and a live player. */
  ghost predicate MixedBlock(status: map<Player, nat>, s: seq<Player>) {
    if |s| > 2 then Mixed(status, s[..3]) || MixedBlock(status, s[3..]) else |s| == 2 && Mixed(status, s)
  }

  ghost predicate Mixed(status: map<Player, nat>, block: seq<Player>) {
    && (exists i :: 0 <= i < |block| && Gone(status, block[i]))
    && (exists i :: 0 <= i < |block| && !Gone(status, block[i]))
  }

  lemma {:induction false} AnyGoneMeans(status: map<Player, nat>, s: seq<Player>)
    ensures AnyGone(status, s) <==> exists i :: 0 <= i < |s| && Gone(status, s[i])
    ensures Live(status, s) != [] <==> exists i :: 0 <= i < |s| && !Gone(status, s[i])
  {
    hide Gone;
    if s != [] {
      AnyGoneMeans(status, s[1..]);
      assert forall i :: 0 < i < |s| ==> s[i] == s[1..][i - 1];
      assert forall i :: 0 <= i < |s[1..]| ==> s[1..][i] == s[i + 1];
    }
  }

  /** Live players are dropped exactly when a block mixes live and logged-out players. */
  lemma {:induction false} DroppedIff(status: map<Player, nat>, s: seq<Player>)
    ensures Dropped(status, s) != [] <==> MixedBlock(status, s)
  {
    hide Gone, Live, AnyGone;
    if |s| > 2 {
      DroppedIff(status, s[3..]);
      BlockDropped(status, s[..3]);
    } else {
      BlockDropped(status, s);
    }
  }

  lemma BlockDropped(status: map<Player, nat>, block: seq<Player>)
    ensures Mixed(status, block) <==> AnyGone(status, block) && Live(status, block) != []
  {
    hide Gone, Live, AnyGone;
    AnyGoneMeans(status, block);
  }

  // ---------------------------------------------------------------- tables whose round is over

  predicate AllOver(status: map<Player, nat>, t: Triple) {
    && StatusOf(status, t.pair.first) == ROUNDOVERED
    && StatusOf(status, t.pair.second) == ROUNDOVERED
    && StatusOf(status, t.third) == ROUNDOVERED
  }

  function Human(kind: map<Player, Kind>, p: Player): seq<Player> {
    if KindOf(kind, p) == Ai then [] else [p]
  }

  function Humans(kind: map<Player, Kind>, t: Triple): seq<Player> {
    Human(kind, t.pair.first) + Human(kind, t.pair.second) + Human(kind, t.third)
  }

  /** The players, other than AI players, of tables whose round is over. */
  function GoHome(status: map<Player, nat>, kind: map<Player, Kind>, s: seq<Triple>): seq<Player> {
    if s == [] then [] else (if AllOver(status, s[0]) then Humans(kind, s[0]) else []) + GoHome(status, kind, s[1..])
  }

  lemma {:induction false} GoHomeAgrees(status: map<Player, nat>, other: map<Player, nat>, kind: map<Player, Kind>, s: seq<Triple>)
    requires forall p :: p in SeatsThree(s) ==> StatusOf(status, p) == StatusOf(other, p)
    ensures GoHome(status, kind, s) == GoHome(other, kind, s)
  {
    hide StatusOf, Humans;
    if s != [] {
      var t := s[0];
      forall p | p in TripleSeats(t) || p in SeatsThree(s[1..]) ensures StatusOf(status, p) == StatusOf(other, p) {
        assert p in SeatsThree(s);
      }
      GoHomeAgrees(status, other, kind, s[1..]);
      assert t.pair.first in TripleSeats(t) && t.pair.second in TripleSeats(t) && t.third in TripleSeats(t);
      assert AllOver(status, t) == AllOver(other, t);
    }
  }
}
