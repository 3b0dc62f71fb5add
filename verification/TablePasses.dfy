/** The passes over the tables of two and of three, and what they keep. */
module TablePasses {
  import opened Ledger
  import opened Seating
  import opened Passes

  // ---------------------------------------------------------------- players between two lists

  /** The account while some players are in hand: off their table and not yet put anywhere. */
  ghost function Holding(l: Lists, hand: multiset<Player>): Books {
    Account(l).(seats := Account(l).seats + hand)
  }

  lemma HoldNothing(l: Lists)
    ensures Holding(l, multiset{}) == Account(l)
  {
    hide SeatsOf;
  }

  function DeletePlayer(l: Lists, p: Player): Lists {
    l.(deleted := l.deleted + [p])
  }

  function ReturnAi(l: Lists, p: Player): Lists {
    l.(pool := l.pool + [p])
  }

  function Depart(l: Lists, p: Player): Lists {
    l.(left := l.left + [p])
  }

  function LogOut(l: Lists, p: Player): Lists {
    l.(status := l.status[p := LOG_OUTED])
  }

  /** AI players go back to the pool, others are deleted. */
  function Release(l: Lists, p: Player): Lists {
    if KindOf(l.kind, p) == Ai then ReturnAi(l, p) else DeletePlayer(l, p)
  }

  /** AI players go back to the pool, others wait again. */
  function OutTwo(l: Lists, p: Player): Lists {
    if KindOf(l.kind, p) == Ai then ReturnAi(l, p) else l.(one := l.one + [p])
  }

  lemma PutDown(m: multiset<Player>, h: multiset<Player>, p: Player)
    ensures p in m + (h + multiset{p})
    ensures m + (h + multiset{p}) - multiset{p} == m + h
  {
  }

  lemma DeleteFromHand(l: Lists, h: multiset<Player>, p: Player)
    requires Gone(l.status, p) || KindOf(l.kind, p) == Ai
    ensures Kept(Holding(l, h + multiset{p}), Holding(DeletePlayer(l, p), h))
  {
    hide SeatsOf, Kept, Gone;
    var b := Holding(l, h + multiset{p});
    PutDown(Account(l).seats, h, p);
    DeleteKept(b, p);
    assert Holding(DeletePlayer(l, p), h) == Delete(b, p);
  }

  lemma ReturnFromHand(l: Lists, h: multiset<Player>, p: Player, out: bool)
    requires KindOf(l.kind, p) == Ai
    ensures Kept(Holding(l, h + multiset{p}), Holding(ReturnAi(if out then LogOut(l, p) else l, p), h))
  {
    hide SeatsOf, Kept, Gone;
    var b, m := Holding(l, h + multiset{p}), if out then LogOut(l, p) else l;
    PutDown(Account(l).seats, h, p);
    ToPoolKept(b, p, m.status);
    assert Holding(ReturnAi(m, p), h) == ToPool(b, p, m.status);
  }

  lemma DepartFromHand(l: Lists, h: multiset<Player>, p: Player, out: bool)
    ensures Kept(Holding(l, h + multiset{p}), Holding(Depart(if out then LogOut(l, p) else l, p), h))
  {
    hide SeatsOf, Kept, Gone;
    var b, m := Holding(l, h + multiset{p}), if out then LogOut(l, p) else l;
    PutDown(Account(l).seats, h, p);
    LeaveKept(b, p, m.status);
    assert Holding(Depart(m, p), h) == Leave(b, p, m.status);
  }

  lemma ReleaseFromHand(l: Lists, h: multiset<Player>, p: Player)
    requires Gone(l.status, p)
    ensures Kept(Holding(l, h + multiset{p}), Holding(Release(l, p), h))
  {
    hide Holding, Kept, Gone;
    if KindOf(l.kind, p) == Ai {
      ReturnFromHand(l, h, p, false);
    } else {
      DeleteFromHand(l, h, p);
    }
  }

  lemma WaitAgain(l: Lists, h: multiset<Player>, p: Player)
    ensures Holding(l.(one := l.one + [p]), h) == Holding(l, h + multiset{p})
  {
    hide SeatsTwo, SeatsThree;
    Shuffle(multiset(l.one), SeatsTwo(l.two), SeatsThree(l.three), h, multiset{p});
  }

  lemma Shuffle(a: multiset<Player>, b: multiset<Player>, c: multiset<Player>, h: multiset<Player>, p: multiset<Player>)
    ensures (a + p) + b + c + h == a + b + c + (h + p)
    ensures a + (b + p) + c + h == a + b + c + (h + p)
    ensures a + b + (c + p) + h == a + b + c + (h + p)
  {
  }

  lemma OutTwoFromHand(l: Lists, h: multiset<Player>, p: Player)
    ensures Kept(Holding(l, h + multiset{p}), Holding(OutTwo(l, p), h))
  {
    hide Holding, Kept;
    if KindOf(l.kind, p) == Ai {
      ReturnFromHand(l, h, p, false);
    } else {
      WaitAgain(l, h, p);
      KeptRefl(Holding(l, h + multiset{p}));
    }
  }

  lemma SitAtTwo(l: Lists, t: Pair)
    ensures Account(l.(two := l.two + [t])) == Holding(l, PairSeats(t))
  {
    hide SeatsTwo, SeatsThree, PairSeats;
    SeatsTwoAppend(l.two, t);
    Shuffle(multiset(l.one), SeatsTwo(l.two), SeatsThree(l.three), multiset{}, PairSeats(t));
  }

  lemma SitAtThree(l: Lists, t: Triple)
    ensures Account(l.(three := l.three + [t])) == Holding(l, TripleSeats(t))
  {
    hide SeatsTwo, SeatsThree, TripleSeats;
    SeatsThreeAppend(l.three, t);
    Shuffle(multiset(l.one), SeatsTwo(l.two), SeatsThree(l.three), multiset{}, TripleSeats(t));
  }

  function ClearTwo(l: Lists, i: nat): Lists
    requires i < |l.two|
  {
    l.(two := Without(l.two, i))
  }

  function ClearThree(l: Lists, i: nat): Lists
    requires i < |l.three|
  {
    l.(three := Without(l.three, i))
  }

  lemma StandUpTwo(l: Lists, i: nat)
    requires i < |l.two|
    ensures Account(l) == Holding(ClearTwo(l, i), PairSeats(l.two[i]))
  {
    hide SeatsTwo, SeatsThree, PairSeats;
    SeatsTwoWithout(l.two, i);
    Shuffle(multiset(l.one), SeatsTwo(Without(l.two, i)), SeatsThree(l.three), multiset{}, PairSeats(l.two[i]));
  }

  lemma StandUpThree(l: Lists, i: nat)
    requires i < |l.three|
    ensures Account(l) == Holding(ClearThree(l, i), TripleSeats(l.three[i]))
  {
    hide SeatsTwo, SeatsThree, TripleSeats;
    SeatsThreeWithout(l.three, i);
    Shuffle(multiset(l.one), SeatsTwo(l.two), SeatsThree(Without(l.three, i)), multiset{}, TripleSeats(l.three[i]));
  }

  // ---------------------------------------------------------------- the pass over tables of two

  /** A table of two one of whose players has logged out is broken up. */
  function LogoutTwo(l: Lists, i: nat): Lists
    requires i < |l.two|
  {
    var t, m := l.two[i], ClearTwo(l, i);
    if !Gone(l.status, t.second) then OutTwo(Release(m, t.first), t.second)
    else if !Gone(l.status, t.first) then Release(OutTwo(m, t.first), t.second)
    else Release(Release(m, t.first), t.second)
  }

  /** The first waiting player makes it a table of three. */
  function JoinWaiter(l: Lists, i: nat): Lists
    requires i < |l.two| && l.one != []
  {
    l.(one := l.one[1..], two := Without(l.two, i), three := l.three + [Triple(l.two[i], l.one[0])])
  }

  /** An AI player makes it a table of three. */
  function JoinAi(l: Lists, i: nat): Lists
    requires i < |l.two|
  {
    Engaged(l).(two := Without(l.two, i), three := l.three + [Triple(l.two[i], NextAi(l))])
  }

  /** A logged-out player at the front of the waiting list is deleted. */
  function Skimmed(l: Lists): (r: Lists)
    ensures r.two == l.two && r.three == l.three && r.status == l.status && r.kind == l.kind
    ensures r.pool == l.pool && r.nextId == l.nextId
  {
    if l.one != [] && Gone(l.status, l.one[0]) then DropBlock(l, 1) else l
  }

  function PassTwo(l: Lists, i: nat, expired: set<Player>): Lists
    requires i <= |l.two|
    decreases |l.two| - i
  {
    if i == |l.two| then l
    else
      var t := l.two[i];
      if Gone(l.status, t.first) || Gone(l.status, t.second) then PassTwo(LogoutTwo(l, i), i, expired)
      else if l.one != [] && !Gone(l.status, l.one[0]) then PassTwo(JoinWaiter(l, i), i, expired)
      else if t.first in expired || t.second in expired then PassTwo(JoinAi(Skimmed(l), i), i, expired)
      else PassTwo(Skimmed(l), i + 1, expired)
  }

  lemma LogoutTwoKept(l: Lists, i: nat)
    requires i < |l.two| && (Gone(l.status, l.two[i].first) || Gone(l.status, l.two[i].second))
    ensures Kept(Account(l), Account(LogoutTwo(l, i)))
  {
    hide Kept, Account, Holding, Release, OutTwo, Gone, ClearTwo;
    var t, m := l.two[i], ClearTwo(l, i);
    var p, q := multiset{t.first}, multiset{t.second};
    StandUpTwo(l, i);
    assert PairSeats(t) == q + p && PairSeats(t) == p + q;
    assert multiset{} + q == q && multiset{} + p == p;
    HoldNothing(LogoutTwo(l, i));
    SameStatus(l, i);
    if !Gone(l.status, t.second) {
      ReleaseFromHand(m, q, t.first);
      OutTwoFromHand(Release(m, t.first), multiset{}, t.second);
      KeptTransitive(Account(l), Holding(Release(m, t.first), q), Account(LogoutTwo(l, i)));
    } else if !Gone(l.status, t.first) {
      OutTwoFromHand(m, q, t.first);
      ReleaseFromHand(OutTwo(m, t.first), multiset{}, t.second);
      KeptTransitive(Account(l), Holding(OutTwo(m, t.first), q), Account(LogoutTwo(l, i)));
    } else {
      ReleaseFromHand(m, q, t.first);
      ReleaseFromHand(Release(m, t.first), multiset{}, t.second);
      KeptTransitive(Account(l), Holding(Release(m, t.first), q), Account(LogoutTwo(l, i)));
    }
  }

  lemma SameStatus(l: Lists, i: nat)
    requires i < |l.two|
    ensures forall p :: Release(ClearTwo(l, i), p).status == l.status && OutTwo(ClearTwo(l, i), p).status == l.status
    ensures ClearTwo(l, i).status == l.status
  {
  }

  lemma JoinWaiterKept(l: Lists, i: nat)
    requires i < |l.two| && l.one != []
    ensures Account(JoinWaiter(l, i)) == Account(l)
  {
    var t, p := l.two[i], l.one[0];
    var m := ClearTwo(l, i).(one := l.one[1..]);
    assert l.one == [p] + l.one[1..];
    StandUpTwo(l, i);
    SitAtThree(m, Triple(t, p));
    assert TripleSeats(Triple(t, p)) == PairSeats(t) + multiset{p};
    hide PairSeats, TripleSeats, SeatsTwo, SeatsThree;
    FirstStandsUp(multiset(m.one), SeatsTwo(m.two), SeatsThree(m.three), PairSeats(t), p);
  }

  lemma FirstStandsUp(a: multiset<Player>, b: multiset<Player>, c: multiset<Player>, h: multiset<Player>, p: Player)
    ensures (multiset{p} + a) + b + c + h == a + b + c + (h + multiset{p})
  {
  }

  lemma JoinAiKept(l: Lists, i: nat)
    requires Proper(Account(l)) && i < |l.two|
    ensures Kept(Account(l), Account(JoinAi(l, i)))
  {
    hide Kept, Proper, Total, SeatsOf;
    var t, p := l.two[i], NextAi(l);
    EngagedIs(l);
    EngageKept(Account(l), p);
    StandUpTwo(l, i);
    var m := ClearTwo(Engaged(l), i);
    SitAtThree(m, Triple(t, p));
    assert TripleSeats(Triple(t, p)) == PairSeats(t) + multiset{p};
    hide PairSeats, TripleSeats, NextAi;
    assert Account(m).seats + (PairSeats(t) + multiset{p}) == (Account(m).seats + PairSeats(t)) + multiset{p};
    assert Account(JoinAi(l, i)) == Engage(Account(l), p);
  }

  lemma SkimmedKept(l: Lists)
    ensures Kept(Account(l), Account(Skimmed(l)))
  {
    hide Kept, Account, Gone;
    KeptRefl(Account(l));
    if l.one != [] {
      DropBlockKept(l, 1);
    }
  }

  /** The second pass keeps everybody accounted for, and sends nobody home and drops nobody. */
  lemma {:induction false} PassTwoKept(l: Lists, i: nat, expired: set<Player>)
    requires Proper(Account(l)) && i <= |l.two|
    ensures var r := PassTwo(l, i, expired);
            Kept(Account(l), Account(r)) && r.left == l.left && r.lost == l.lost
    decreases |l.two| - i
  {
    hide Kept, Proper, Account, Gone, LogoutTwo, JoinWaiter, JoinAi, Skimmed;
    var b, r := Account(l), PassTwo(l, i, expired);
    KeptRefl(b);
    if i < |l.two| {
      var t := l.two[i];
      StepTwoKeeps(l, i);
      if Gone(l.status, t.first) || Gone(l.status, t.second) {
        var m := LogoutTwo(l, i);
        LogoutTwoKept(l, i);
        ProperKept(b, Account(m));
        PassTwoKept(m, i, expired);
        KeptTransitive(b, Account(m), Account(r));
      } else if l.one != [] && !Gone(l.status, l.one[0]) {
        JoinWaiterKept(l, i);
        PassTwoKept(JoinWaiter(l, i), i, expired);
      } else {
        var s := Skimmed(l);
        SkimmedKept(l);
        ProperKept(b, Account(s));
        if t.first in expired || t.second in expired {
          var m := JoinAi(s, i);
          JoinAiKept(s, i);
          ProperKept(Account(s), Account(m));
          KeptTransitive(b, Account(s), Account(m));
          PassTwoKept(m, i, expired);
          KeptTransitive(b, Account(m), Account(r));
        } else {
          PassTwoKept(s, i + 1, expired);
          KeptTransitive(b, Account(s), Account(r));
        }
      }
    }
  }

  lemma StepTwoKeeps(l: Lists, i: nat)
    requires i < |l.two|
    ensures LogoutTwo(l, i).two == Without(l.two, i)
    ensures LogoutTwo(l, i).left == l.left && LogoutTwo(l, i).lost == l.lost && LogoutTwo(l, i).status == l.status
    ensures Skimmed(l).two == l.two && Skimmed(l).left == l.left && Skimmed(l).lost == l.lost
    ensures JoinAi(Skimmed(l), i).two == Without(l.two, i)
    ensures JoinAi(Skimmed(l), i).left == l.left && JoinAi(Skimmed(l), i).lost == l.lost
    ensures l.one != [] ==>
              JoinWaiter(l, i).two == Without(l.two, i) && JoinWaiter(l, i).left == l.left && JoinWaiter(l, i).lost == l.lost
              && JoinWaiter(l, i).status == l.status
  {
    SkimmedIs(l);
    hide Gone, Skimmed;
    LogoutTwoIs(l, i);
    hide LogoutTwo;
  }

  lemma LogoutTwoIs(l: Lists, i: nat)
    requires i < |l.two|
    ensures var r := LogoutTwo(l, i);
            && r.two == Without(l.two, i) && r.three == l.three && r.left == l.left && r.lost == l.lost
            && r.status == l.status && r.kind == l.kind
            && forall p :: p in r.one ==> p in l.one || p == l.two[i].first || p == l.two[i].second
  {
    hide Gone, Release, OutTwo;
    var t, m := l.two[i], ClearTwo(l, i);
    if !Gone(l.status, t.second) {
      ReleaseIs(m, t.first);
      OutTwoIs(Release(m, t.first), t.second);
    } else if !Gone(l.status, t.first) {
      OutTwoIs(m, t.first);
      ReleaseIs(OutTwo(m, t.first), t.second);
    } else {
      ReleaseIs(m, t.first);
      ReleaseIs(Release(m, t.first), t.second);
    }
  }

  lemma ReleaseIs(m: Lists, p: Player)
    ensures var r := Release(m, p); r == m.(pool := r.pool, deleted := r.deleted)
  {
  }

  lemma OutTwoIs(m: Lists, p: Player)
    ensures var r := OutTwo(m, p);
            r == m.(one := r.one, pool := r.pool) && forall q :: q in r.one ==> q in m.one || q == p
  {
  }

  lemma SkimmedIs(l: Lists)
    ensures Skimmed(l).left == l.left && Skimmed(l).lost == l.lost
  {
    hide Gone;
    if l.one != [] {
      NoneDead(l.status, l.one[..1]);
    }
  }

  /** The second pass moves live humans between lists but takes none of them out of the seats. */
  lemma {:induction false} SecondPassLosesNobody(l: Lists, expired: set<Player>)
    requires Proper(Account(l))
    ensures var r := PassTwo(l, 0, expired);
            Proper(Account(r)) && LiveHumans(Account(r)) == LiveHumans(Account(l))
  {
    hide Proper, Kept, LiveHumans, PassTwo, SeatsOf;
    var r := PassTwo(l, 0, expired);
    PassTwoKept(l, 0, expired);
    ProperKept(Account(l), Account(r));
    LiveHumansKept(Account(l), Account(r));
  }

  /** A table of two that stays: both are there and neither has waited too long. */
  ghost predicate SettledTwo(status: map<Player, nat>, t: Pair, expired: set<Player>) {
    !Gone(status, t.first) && !Gone(status, t.second) && t.first !in expired && t.second !in expired
  }

  lemma SeatedAtTwo(l: Lists, k: nat)
    requires k < |l.two|
    ensures l.two[k].first in Account(l).seats && l.two[k].second in Account(l).seats
  {
    hide SeatsTwo, SeatsThree;
    SeatsTwoWithout(l.two, k);
  }

  lemma NewcomerIsNotSeated(l: Lists)
    requires Proper(Account(l))
    ensures NextAi(l) !in Account(l).seats
  {
    hide SeatsOf;
    EngagedIs(l);
    var b, p := Account(l), NextAi(l);
    assert Total(b)[p] == b.seats[p] + b.pool[p] + b.deleted[p] + b.left[p] + b.lost[p];
  }

  /** The first `i` tables of two are settled. */
  ghost predicate SettledUpTo(status: map<Player, nat>, two: seq<Pair>, i: nat, expired: set<Player>) {
    i <= |two| && forall k :: 0 <= k < i ==> SettledTwo(status, two[k], expired)
  }

  lemma SettledWithout(status: map<Player, nat>, two: seq<Pair>, i: nat, expired: set<Player>)
    requires SettledUpTo(status, two, i, expired) && i < |two|
    ensures SettledUpTo(status, Without(two, i), i, expired)
    ensures SettledTwo(status, two[i], expired) ==> SettledUpTo(status, two, i + 1, expired)
  {
    hide SettledTwo;
  }

  lemma JoinAiSettled(l: Lists, i: nat, expired: set<Player>)
    requires Proper(Account(l)) && i < |l.two| && SettledUpTo(l.status, l.two, i, expired)
    ensures SettledUpTo(JoinAi(l, i).status, JoinAi(l, i).two, i, expired)
  {
    hide Account, Proper, SettledTwo;
    forall k | 0 <= k < i ensures SettledTwo(JoinAi(l, i).status, JoinAi(l, i).two[k], expired) {
      JoinAiSettledOne(l, i, k, expired);
    }
  }

  lemma JoinAiSettledOne(l: Lists, i: nat, k: nat, expired: set<Player>)
    requires Proper(Account(l)) && k < i < |l.two| && SettledTwo(l.status, l.two[k], expired)
    ensures k < |JoinAi(l, i).two| && SettledTwo(JoinAi(l, i).status, JoinAi(l, i).two[k], expired)
  {
    SeatedAtTwo(l, k);
    NewcomerIsNotSeated(l);
    hide Account, Proper;
  }

  /** After the second pass every table of two is settled. */
  lemma {:induction false} PassTwoSettles(l: Lists, i: nat, expired: set<Player>)
    requires Proper(Account(l)) && SettledUpTo(l.status, l.two, i, expired)
    ensures var r := PassTwo(l, i, expired); SettledUpTo(r.status, r.two, |r.two|, expired)
    decreases |l.two| - i
  {
    hide Kept, Proper, Account, Gone, LogoutTwo, JoinWaiter, JoinAi, Skimmed, SettledUpTo;
    WithinTables(l, i, expired);
    if i < |l.two| {
      var t, s := l.two[i], Skimmed(l);
      StepTwoKeeps(l, i);
      SkimmedKept(l);
      ProperKept(Account(l), Account(s));
      SettledWithout(l.status, l.two, i, expired);
      if Gone(l.status, t.first) || Gone(l.status, t.second) {
        LogoutTwoKept(l, i);
        ProperKept(Account(l), Account(LogoutTwo(l, i)));
        PassTwoSettles(LogoutTwo(l, i), i, expired);
      } else if l.one != [] && !Gone(l.status, l.one[0]) {
        JoinWaiterKept(l, i);
        PassTwoSettles(JoinWaiter(l, i), i, expired);
      } else if t.first in expired || t.second in expired {
        JoinAiKept(s, i);
        ProperKept(Account(s), Account(JoinAi(s, i)));
        JoinAiSettled(s, i, expired);
        PassTwoSettles(JoinAi(s, i), i, expired);
      } else {
        PassTwoSettles(s, i + 1, expired);
      }
    }
  }

  lemma WithinTables(l: Lists, i: nat, expired: set<Player>)
    requires SettledUpTo(l.status, l.two, i, expired)
    ensures i <= |l.two|
  {
  }
}
