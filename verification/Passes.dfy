/**
 * The three passes of a room's update as functions of its lists, and what they keep. The class in
 * Rooms performs them in place.
 */
module Passes {
  import opened Ledger
  import opened Seating

  /** `deleted`, `left` and `lost` are histories: of deletions, rounds that ended, and dropped players. */
  datatype Lists = Lists(
    one: seq<Player>, two: seq<Pair>, three: seq<Triple>, pool: seq<Player>,
    deleted: seq<Player>, left: seq<Player>, lost: seq<Player>,
    nextId: nat, status: map<Player, nat>, kind: map<Player, Kind>)

  ghost function Account(l: Lists): Books {
    Books(SeatsOf(l.one, l.two, l.three), multiset(l.pool), multiset(l.deleted), multiset(l.left), multiset(l.lost),
          l.nextId, l.status, l.kind)
  }

  // ---------------------------------------------------------------- the waiting list

  /** The first `n` players are taken out; the logged-out ones are deleted and the others dropped. */
  function DropBlock(l: Lists, n: nat): Lists
    requires n <= |l.one|
  {
    l.(one := l.one[n..], deleted := l.deleted + Dead(l.status, l.one[..n]), lost := l.lost + Live(l.status, l.one[..n]))
  }

  function SeatThree(l: Lists): Lists
    requires |l.one| > 2
  {
    l.(one := l.one[3..], three := l.three + [Triple(Pair(l.one[0], l.one[1]), l.one[2])])
  }

  function SeatTwo(l: Lists): Lists
    requires |l.one| == 2
  {
    l.(one := [], two := l.two + [Pair(l.one[0], l.one[1])])
  }

  /** The AI player at the back of the pool, or a new one. */
  function NextAi(l: Lists): Player {
    if l.pool == [] then l.nextId else l.pool[|l.pool| - 1]
  }

  /** That player is configured and leaves the pool. */
  function Engaged(l: Lists): Lists {
    l.(pool := if l.pool == [] then [] else l.pool[..|l.pool| - 1],
       nextId := if l.pool == [] then l.nextId + 1 else l.nextId,
       status := l.status[NextAi(l) := STARTING], kind := l.kind[NextAi(l) := Ai])
  }

  function SeatWithAi(l: Lists): Lists
    requires |l.one| == 1
  {
    Engaged(l).(one := [], two := l.two + [Pair(l.one[0], NextAi(l))])
  }

  /** The pass over the waiting list; `expired` are those whose waiting time is over. */
  function PassOne(l: Lists, expired: set<Player>): Lists
    decreases |l.one|
  {
    if |l.one| > 2 then
      PassOne(if AnyGone(l.status, l.one[..3]) then DropBlock(l, 3) else SeatThree(l), expired)
    else if |l.one| == 2 then
      if AnyGone(l.status, l.one) then DropBlock(l, 2) else SeatTwo(l)
    else if |l.one| == 1 then
      if Gone(l.status, l.one[0]) then DropBlock(l, 1) else if l.one[0] in expired then SeatWithAi(l) else l
    else l
  }

  // ---------------------------------------------------------------- its bookkeeping

  /** Taking players out one by one. */
  ghost function TakenOut(b: Books, s: seq<Player>): Books
    decreases |s|
  {
    if s == [] then b else TakenOut(if Gone(b.status, s[0]) then Delete(b, s[0]) else Lose(b, s[0]), s[1..])
  }

  lemma {:induction false} TakenOutKept(b: Books, s: seq<Player>)
    requires multiset(s) <= b.seats
    ensures Kept(b, TakenOut(b, s))
    decreases |s|
  {
    hide Kept, Gone;
    KeptRefl(b);
    if s != [] {
      assert s == [s[0]] + s[1..];
      assert s[0] in multiset(s);
      var c := if Gone(b.status, s[0]) then Delete(b, s[0]) else Lose(b, s[0]);
      if Gone(b.status, s[0]) {
        DeleteKept(b, s[0]);
      } else {
        LoseKept(b, s[0]);
      }
      RestIncluded(s, b.seats);
      TakenOutKept(c, s[1..]);
      KeptTransitive(b, c, TakenOut(b, s));
    }
  }

  lemma RestIncluded(s: seq<Player>, m: multiset<Player>)
    requires s != [] && multiset(s) <= m
    ensures multiset(s[1..]) <= m - multiset{s[0]}
  {
    assert s == [s[0]] + s[1..];
    forall p: Player ensures multiset(s[1..])[p] <= (m - multiset{s[0]})[p] {
      assert multiset(s)[p] <= m[p];
    }
  }

  lemma {:induction false} TakenOutIs(b: Books, s: seq<Player>)
    ensures var c := TakenOut(b, s);
            && c.seats == b.seats - multiset(s)
            && c.deleted == b.deleted + multiset(Dead(b.status, s))
            && c.lost == b.lost + multiset(Live(b.status, s))
            && c == b.(seats := c.seats, deleted := c.deleted, lost := c.lost)
    decreases |s|
  {
    hide Gone;
    if s == [] {
    } else {
      var p, rest := s[0], s[1..];
      var c := if Gone(b.status, p) then Delete(b, p) else Lose(b, p);
      TakenOutIs(c, rest);
      OffByOne(b.seats, s);
      Prepend(b.deleted, p, Dead(b.status, rest));
      Prepend(b.lost, p, Live(b.status, rest));
    }
  }

  lemma OffByOne(m: multiset<Player>, s: seq<Player>)
    requires s != []
    ensures m - multiset{s[0]} - multiset(s[1..]) == m - multiset(s)
  {
    assert s == [s[0]] + s[1..];
  }

  lemma Prepend(m: multiset<Player>, p: Player, s: seq<Player>)
    ensures m + multiset([p] + s) == m + multiset{p} + multiset(s)
  {
  }

  lemma BlockOut(l: Lists, n: nat)
    requires n <= |l.one|
    ensures multiset(l.one[..n]) <= SeatsOf(l.one, l.two, l.three)
    ensures SeatsOf(l.one[n..], l.two, l.three) == SeatsOf(l.one, l.two, l.three) - multiset(l.one[..n])
  {
    hide SeatsTwo, SeatsThree;
    assert l.one == l.one[..n] + l.one[n..];
  }

  lemma DropBlockKept(l: Lists, n: nat)
    requires n <= |l.one|
    ensures Kept(Account(l), Account(DropBlock(l, n)))
  {
    hide SeatsOf, Kept, Gone, Dead, Live;
    var b, block := Account(l), l.one[..n];
    BlockOut(l, n);
    TakenOutKept(b, block);
    TakenOutIs(b, block);
    hide TakenOut;
    var c := Account(DropBlock(l, n));
    assert c.deleted == b.deleted + multiset(Dead(l.status, block));
    assert c.lost == b.lost + multiset(Live(l.status, block));
    assert c == TakenOut(b, block);
  }

  lemma SeatThreeKept(l: Lists)
    requires |l.one| > 2
    ensures Account(SeatThree(l)) == Account(l)
  {
    var block := l.one[..3];
    var t := Triple(Pair(l.one[0], l.one[1]), l.one[2]);
    assert block == [l.one[0], l.one[1], l.one[2]];
    ThreeInTriple(t, block);
    hide TripleSeats, SeatsTwo, SeatsThree;
    assert l.one == block + l.one[3..];
    SeatsThreeAppend(l.three, t);
    Regroup(multiset(block), multiset(l.one[3..]), SeatsTwo(l.two), SeatsThree(l.three));
  }

  lemma TwoInPair(t: Pair, s: seq<Player>)
    requires s == [t.first, t.second]
    ensures PairSeats(t) == multiset(s)
  {
  }

  lemma ThreeInTriple(t: Triple, s: seq<Player>)
    requires s == [t.pair.first, t.pair.second, t.third]
    ensures TripleSeats(t) == multiset(s)
  {
  }

  lemma Regroup(a: multiset<Player>, b: multiset<Player>, c: multiset<Player>, d: multiset<Player>)
    ensures (a + b) + c + d == b + c + (d + a)
    ensures (a + b) + c + d == b + (c + a) + d
  {
  }

  lemma SeatTwoKept(l: Lists)
    requires |l.one| == 2
    ensures Account(SeatTwo(l)) == Account(l)
  {
    hide PairSeats, SeatsTwo, SeatsThree;
    var t := Pair(l.one[0], l.one[1]);
    TwoInPair(t, l.one);
    SeatsTwoAppend(l.two, t);
    Regroup(multiset(l.one), multiset([]), SeatsTwo(l.two), SeatsThree(l.three));
  }

  lemma EngagedIs(l: Lists)
    requires Proper(Account(l))
    ensures var b, p := Account(l), NextAi(l);
            && (p in b.pool || p == b.nextId)
            && Engage(b, p) == Account(Engaged(l)).(seats := b.seats + multiset{p})
  {
    hide SeatsOf;
    var b, p := Account(l), NextAi(l);
    if l.pool == [] {
      assert Total(b)[p] == 0;
    } else {
      assert l.pool == l.pool[..|l.pool| - 1] + [p];
    }
  }

  lemma SeatWithAiKept(l: Lists)
    requires Proper(Account(l)) && |l.one| == 1
    ensures Kept(Account(l), Account(SeatWithAi(l)))
  {
    hide Kept, Proper, Total;
    var b, p := Account(l), NextAi(l);
    EngagedIs(l);
    EngageKept(b, p);
    var t := Pair(l.one[0], p);
    assert l.one == [t.first];
    assert PairSeats(t) == multiset(l.one) + multiset{p};
    hide PairSeats, SeatsTwo, SeatsThree;
    SeatsTwoAppend(l.two, t);
    AiJoins(multiset(l.one), SeatsTwo(l.two), SeatsThree(l.three), p);
    hide SeatsOf;
    assert Account(SeatWithAi(l)).seats == b.seats + multiset{p} by {
      assert SeatsOf([], l.two + [t], l.three) == multiset([]) + (SeatsTwo(l.two) + PairSeats(t)) + SeatsThree(l.three) by {
        SeatsUnfold([], l.two + [t], l.three);
      }
      SeatsUnfold(l.one, l.two, l.three);
    }
    hide NextAi;
    assert Account(SeatWithAi(l)) == Engage(b, p);
  }

  lemma SeatsUnfold(one: seq<Player>, two: seq<Pair>, three: seq<Triple>)
    ensures SeatsOf(one, two, three) == multiset(one) + SeatsTwo(two) + SeatsThree(three)
  {
  }

  lemma AiJoins(a: multiset<Player>, b: multiset<Player>, c: multiset<Player>, p: Player)
    ensures multiset{} + (b + (a + multiset{p})) + c == a + b + c + multiset{p}
  {
  }

  /** The first pass keeps everybody accounted for. */
  lemma {:induction false} PassOneKept(l: Lists, expired: set<Player>)
    requires Proper(Account(l))
    ensures Kept(Account(l), Account(PassOne(l, expired)))
    decreases |l.one|
  {
    hide Kept, Proper, Account, DropBlock, SeatTwo, SeatWithAi, AnyGone, Gone;
    KeptRefl(Account(l));
    if |l.one| > 2 {
      var m := if AnyGone(l.status, l.one[..3]) then DropBlock(l, 3) else SeatThree(l);
      if AnyGone(l.status, l.one[..3]) {
        DropBlockKept(l, 3);
      } else {
        SeatThreeKept(l);
      }
      ProperKept(Account(l), Account(m));
      DropBlockIs(l, 3);
      PassOneKept(m, expired);
      KeptTransitive(Account(l), Account(m), Account(PassOne(l, expired)));
    } else if |l.one| == 2 {
      DropBlockKept(l, 2);
      SeatTwoKept(l);
    } else if |l.one| == 1 {
      DropBlockKept(l, 1);
      SeatWithAiKept(l);
    }
  }

  lemma DropBlockIs(l: Lists, n: nat)
    requires n <= |l.one|
    ensures DropBlock(l, n) ==
            l.(one := l.one[n..], deleted := l.deleted + Dead(l.status, l.one[..n]), lost := l.lost + Live(l.status, l.one[..n]))
  {
  }

  // ---------------------------------------------------------------- what the first pass makes of the list

  /** Who keeps waiting: a single live player whose time is not up. */
  function Waiter(status: map<Player, nat>, tail: seq<Player>, expired: set<Player>): seq<Player> {
    if |tail| == 1 && !Gone(status, tail[0]) && tail[0] !in expired then tail else []
  }

  /** The table of two made of the last one or two waiting players. */
  function LastTable(l: Lists, tail: seq<Player>, expired: set<Player>): seq<Pair> {
    if |tail| == 2 && !AnyGone(l.status, tail) then [Pair(tail[0], tail[1])]
    else if |tail| == 1 && !Gone(l.status, tail[0]) && tail[0] in expired then [Pair(tail[0], NextAi(l))]
    else []
  }

  /** The lists after the first pass, each in closed form. */
  ghost predicate FirstPass(l: Lists, r: Lists, expired: set<Player>) {
    && r.three == l.three + Threes(l.status, l.one)
    && r.two == l.two + LastTable(l, Tail(l.one), expired)
    && r.one == Waiter(l.status, Tail(l.one), expired)
    && r.deleted == l.deleted + Dead(l.status, l.one)
    && r.lost == l.lost + Dropped(l.status, l.one)
    && r.left == l.left
  }

  lemma {:induction false} PassOneResult(l: Lists, expired: set<Player>)
    ensures FirstPass(l, PassOne(l, expired), expired)
    decreases |l.one|
  {
    if |l.one| > 2 {
      hide FirstPass, Gone, AnyGone, Live, DropBlock, SeatThree;
      if AnyGone(l.status, l.one[..3]) {
        DropBlockIs(l, 3);
        PassOneResult(DropBlock(l, 3), expired);
        AfterDrop(l, PassOne(l, expired), expired);
      } else {
        SeatThreeIs(l);
        PassOneResult(SeatThree(l), expired);
        AfterSeat(l, PassOne(l, expired), expired);
      }
    } else {
      LastBlock(l, expired);
    }
  }

  lemma SeatThreeIs(l: Lists)
    requires |l.one| > 2
    ensures SeatThree(l) == l.(one := l.one[3..], three := l.three + [Triple(Pair(l.one[0], l.one[1]), l.one[2])])
  {
  }

  lemma AfterDrop(l: Lists, r: Lists, expired: set<Player>)
    requires |l.one| > 2 && AnyGone(l.status, l.one[..3]) && FirstPass(DropBlock(l, 3), r, expired)
    ensures FirstPass(l, r, expired)
  {
    hide AnyGone, Live, Dead, Gone, Dropped, Threes, Tail, LastTable, Waiter;
    BlockStep(l.status, l.one);
    LastTableAgrees(l, DropBlock(l, 3), Tail(l.one), expired);
    Assoc(l.deleted, Dead(l.status, l.one[..3]), Dead(l.status, l.one[3..]));
    Assoc(l.lost, Live(l.status, l.one[..3]), Dropped(l.status, l.one[3..]));
    assert [] + Threes(l.status, l.one[3..]) == Threes(l.status, l.one[3..]);
  }

  lemma AfterSeat(l: Lists, r: Lists, expired: set<Player>)
    requires |l.one| > 2 && !AnyGone(l.status, l.one[..3]) && FirstPass(SeatThree(l), r, expired)
    ensures FirstPass(l, r, expired)
  {
    hide AnyGone, Live, Dead, Gone, Dropped, Threes, Tail, LastTable, Waiter;
    BlockStep(l.status, l.one);
    NoneDead(l.status, l.one[..3]);
    LastTableAgrees(l, SeatThree(l), Tail(l.one), expired);
    assert [] + Dead(l.status, l.one[3..]) == Dead(l.status, l.one[3..]);
    assert [] + Dropped(l.status, l.one[3..]) == Dropped(l.status, l.one[3..]);
    var t := [Triple(Pair(l.one[0], l.one[1]), l.one[2])];
    assert (l.three + t) + Threes(l.status, l.one[3..]) == l.three + (t + Threes(l.status, l.one[3..]));
  }

  lemma Assoc(a: seq<Player>, b: seq<Player>, c: seq<Player>)
    ensures (a + b) + c == a + (b + c)
  {
  }

  lemma LastTableAgrees(l: Lists, m: Lists, tail: seq<Player>, expired: set<Player>)
    requires m.status == l.status && m.pool == l.pool && m.nextId == l.nextId
    ensures LastTable(m, tail, expired) == LastTable(l, tail, expired)
  {
  }

  lemma LastBlock(l: Lists, expired: set<Player>)
    requires |l.one| <= 2
    ensures FirstPass(l, PassOne(l, expired), expired)
  {
    hide Gone;
    NoneDead(l.status, l.one);
    var s := l.one;
    assert s[..|s|] == s && s[|s|..] == [];
    assert Threes(l.status, s) == [] && Tail(s) == s;
  }

  /** A pass takes a three off the front. */
  lemma BlockStep(status: map<Player, nat>, s: seq<Player>)
    requires |s| > 2
    ensures Tail(s) == Tail(s[3..])
    ensures Threes(status, s) ==
            (if AnyGone(status, s[..3]) then [] else [Triple(Pair(s[0], s[1]), s[2])]) + Threes(status, s[3..])
    ensures Dropped(status, s) ==
            (if AnyGone(status, s[..3]) then Live(status, s[..3]) else []) + Dropped(status, s[3..])
    ensures Dead(status, s) == Dead(status, s[..3]) + Dead(status, s[3..])
  {
    hide AnyGone, Live, Gone;
    DeadSplit(status, s, 3);
  }

  lemma {:induction false} NoneDead(status: map<Player, nat>, s: seq<Player>)
    ensures !AnyGone(status, s) ==> Dead(status, s) == []
    ensures |s| == 1 ==> (Gone(status, s[0]) ==> Live(status, s) == []) && (AnyGone(status, s) <==> Gone(status, s[0]))
  {
    hide Gone;
    if s != [] {
      NoneDead(status, s[1..]);
    }
  }

  lemma {:induction false} DeadSplit(status: map<Player, nat>, s: seq<Player>, n: nat)
    requires n <= |s|
    ensures Dead(status, s) == Dead(status, s[..n]) + Dead(status, s[n..])
  {
    hide Gone;
    if n == 0 {
      assert s[..0] == [] && s[0..] == s;
    } else {
      DeadSplit(status, s[1..], n - 1);
      assert s[..n][0] == s[0] && s[..n][1..] == s[1..][..n - 1] && s[n..] == s[1..][n - 1..];
    }
  }

  /**
   * The first pass takes away exactly the live humans it drops, and it drops someone exactly when
   * some block of the list mixes live and logged-out players.
   */
  lemma {:induction false} FirstPassLoses(l: Lists, expired: set<Player>)
    requires Proper(Account(l))
    ensures var r := PassOne(l, expired);
            && Proper(Account(r))
            && (r.lost == l.lost <==> !MixedBlock(l.status, l.one))
            && LiveHumans(Account(r)) ==
               set p: Player | p in LiveHumans(Account(l)) && p !in Dropped(l.status, l.one)
  {
    hide Proper, Kept, LiveHumans, PassOne, Dropped, MixedBlock, SeatsOf, KindOf, Gone;
    var r := PassOne(l, expired);
    PassOneKept(l, expired);
    ProperKept(Account(l), Account(r));
    LiveHumansKept(Account(l), Account(r));
    PassOneResult(l, expired);
    DroppedIff(l.status, l.one);
    var dropped := Dropped(l.status, l.one);
    assert |r.lost| == |l.lost| + |dropped|;
    forall p: Player ensures multiset(r.lost)[p] == multiset(l.lost)[p] <==> p !in dropped {
      assert multiset(r.lost) == multiset(l.lost) + multiset(dropped);
      assert p in dropped <==> p in multiset(dropped);
    }
  }
}
