/** The pass over the tables of three: broken up, dealt to, or cleared when the round is over. */
module ThirdPass {
  import opened Ledger
  import opened Seating
  import opened Passes
  import opened TablePasses

  predicate SomeoneGone(status: map<Player, nat>, t: Triple) {
    Gone(status, t.pair.first) || Gone(status, t.pair.second) || Gone(status, t.third)
  }

  /** Logged-out players are deleted; two left make a table of two, one left waits. */
  function LogoutThree(l: Lists, i: nat): Lists
    requires i < |l.three|
  {
    var t, m := l.three[i], ClearThree(l, i);
    var p0, p1, p2 := t.pair.first, t.pair.second, t.third;
    if Gone(l.status, p0) && Gone(l.status, p1) && Gone(l.status, p2) then Release(Release(Release(m, p0), p1), p2)
    else Remaining(m, p0, p1, p2)
  }

  /** The table cleared, what becomes of those who are still there. */
  function Remaining(m: Lists, p0: Player, p1: Player, p2: Player): Lists {
    var g0, g1, g2 := Gone(m.status, p0), Gone(m.status, p1), Gone(m.status, p2);
    if g0 && g1 then DeletePlayer(DeletePlayer(m.(one := m.one + [p2]), p0), p1)
    else if g0 && g2 then DeletePlayer(DeletePlayer(m.(one := m.one + [p1]), p0), p2)
    else if g1 && g2 then DeletePlayer(DeletePlayer(m.(one := m.one + [p0]), p1), p2)
    else if g0 then DeletePlayer(m.(two := m.two + [Pair(p1, p2)]), p0)
    else if g1 then DeletePlayer(m.(two := m.two + [Pair(p0, p2)]), p1)
    else DeletePlayer(m.(two := m.two + [Pair(p0, p1)]), p2)
  }

  /** All three have started, know the table, and have not been dealt to. */
  predicate CanDeal(status: map<Player, nat>, t: Triple, ready: set<Player>) {
    && t.pair.first in ready && t.pair.second in ready && t.third in ready
    && StatusOf(status, t.pair.first) < DEALING_CARD
    && StatusOf(status, t.pair.second) < DEALING_CARD
    && StatusOf(status, t.third) < DEALING_CARD
  }

  function Dealt(l: Lists, t: Triple): Lists {
    l.(status := l.status[t.pair.first := DEALING_CARD][t.pair.second := DEALING_CARD][t.third := DEALING_CARD])
  }

  /** At the end of a round AI players return to the pool and stand-ins are marked as logged out. */
  function Home(l: Lists, p: Player): Lists {
    match KindOf(l.kind, p)
    case Ai => ReturnAi(LogOut(l, p), p)
    case ReplaceAi => Depart(LogOut(l, p), p)
    case User => Depart(l, p)
  }

  function RoundOver(l: Lists, i: nat): Lists
    requires i < |l.three|
  {
    var t := l.three[i];
    Home(Home(Home(ClearThree(l, i), t.pair.first), t.pair.second), t.third)
  }

  function PassThree(l: Lists, i: nat, ready: set<Player>): Lists
    requires i <= |l.three|
    decreases |l.three| - i
  {
    if i == |l.three| then l
    else
      var t := l.three[i];
      if SomeoneGone(l.status, t) then PassThree(LogoutThree(l, i), i, ready)
      else
        var m := if CanDeal(l.status, t, ready) then Dealt(l, t) else l;
        if AllOver(m.status, t) then PassThree(RoundOver(m, i), i, ready) else PassThree(m, i + 1, ready)
  }

  // ---------------------------------------------------------------- bookkeeping

  /** The players of a table, in the order they leave the hand. */
  lemma InOrder(p: multiset<Player>, q: multiset<Player>, r: multiset<Player>)
    ensures p + q + r == (r + q) + p
    ensures p + q + r == (q + p) + r
    ensures p + q + r == (r + p) + q
  {
  }

  lemma FromNothing(p: multiset<Player>, q: multiset<Player>, r: multiset<Player>)
    ensures ((multiset{} + p) + q) + r == (p + q) + r
  {
    assert multiset{} + p == p;
  }

  lemma Commutes(p: multiset<Player>, q: multiset<Player>)
    ensures p + q == q + p
  {
  }

  lemma PairInHand(l: Lists, p: Player, q: Player)
    ensures Account(l.(two := l.two + [Pair(p, q)])) == Holding(l, multiset{q} + multiset{p})
    ensures Account(l.(two := l.two + [Pair(p, q)])) == Holding(l, multiset{p} + multiset{q})
  {
    SitAtTwo(l, Pair(p, q));
    Commutes(multiset{p}, multiset{q});
    hide Account, Holding;
  }

  /** One of three has logged out and the other two have sat down together. */
  lemma OneGoneKept(l: Lists, gone: Player, p: Player, q: Player)
    requires Gone(l.status, gone)
    ensures Kept(Holding(l, (multiset{q} + multiset{p}) + multiset{gone}),
                 Account(DeletePlayer(l.(two := l.two + [Pair(p, q)]), gone)))
    ensures Kept(Holding(l, (multiset{p} + multiset{q}) + multiset{gone}),
                 Account(DeletePlayer(l.(two := l.two + [Pair(p, q)]), gone)))
  {
    DeleteFromHand(l, multiset{q} + multiset{p}, gone);
    DeleteFromHand(l, multiset{p} + multiset{q}, gone);
    PairInHand(DeletePlayer(l, gone), p, q);
    hide Account, Holding, Kept, Gone;
    assert DeletePlayer(l.(two := l.two + [Pair(p, q)]), gone) == DeletePlayer(l, gone).(two := l.two + [Pair(p, q)]);
  }

  /** Two of three have logged out and the other one waits again. */
  lemma TwoGoneKept(l: Lists, a: Player, b: Player, stays: Player)
    requires Gone(l.status, a) && Gone(l.status, b)
    ensures Kept(Holding(l, ((multiset{} + multiset{stays}) + multiset{b}) + multiset{a}),
                 Account(DeletePlayer(DeletePlayer(l.(one := l.one + [stays]), a), b)))
  {
    hide Account, Holding, Kept, Gone;
    var s := multiset{} + multiset{stays};
    var m := DeletePlayer(l, a);
    var n := DeletePlayer(m, b);
    DeleteFromHand(l, s + multiset{b}, a);
    DeleteFromHand(m, s, b);
    WaitAgain(n, multiset{}, stays);
    HoldNothing(n.(one := n.one + [stays]));
    assert DeletePlayer(DeletePlayer(l.(one := l.one + [stays]), a), b) == n.(one := n.one + [stays]);
    KeptTransitive(Holding(l, s + multiset{b} + multiset{a}), Holding(m, s + multiset{b}), Holding(n, s));
  }

  lemma AllGoneKept(l: Lists, a: Player, b: Player, c: Player)
    requires Gone(l.status, a) && Gone(l.status, b) && Gone(l.status, c)
    ensures Kept(Holding(l, ((multiset{} + multiset{c}) + multiset{b}) + multiset{a}),
                 Account(Release(Release(Release(l, a), b), c)))
  {
    var h := multiset{} + multiset{c};
    var m := Release(l, a);
    var n := Release(m, b);
    assert m.status == l.status && n.status == l.status;
    hide Account, Holding, Kept, Gone, Release;
    ReleaseFromHand(l, h + multiset{b}, a);
    ReleaseFromHand(m, h, b);
    ReleaseFromHand(n, multiset{}, c);
    HoldNothing(Release(n, c));
    KeptTransitive(Holding(l, h + multiset{b} + multiset{a}), Holding(m, h + multiset{b}), Holding(n, h));
    KeptTransitive(Holding(l, h + multiset{b} + multiset{a}), Holding(n, h), Account(Release(n, c)));
  }

  lemma LogoutThreeKept(l: Lists, i: nat)
    requires i < |l.three| && SomeoneGone(l.status, l.three[i])
    ensures Kept(Account(l), Account(LogoutThree(l, i)))
  {
    var t, m := l.three[i], ClearThree(l, i);
    assert m.status == l.status;
    var p0, p1, p2 := t.pair.first, t.pair.second, t.third;
    var p, q, r := multiset{p0}, multiset{p1}, multiset{p2};
    StandUpThree(l, i);
    assert TripleSeats(t) == p + q + r;
    hide Account, Holding, Kept, Gone, Release, TripleSeats, ClearThree, DeletePlayer;
    InOrder(p, q, r);
    if Gone(l.status, p0) && Gone(l.status, p1) && Gone(l.status, p2) {
      AllGoneKept(m, p0, p1, p2);
      FromNothing(r, q, p);
    } else {
      SomeGoneKept(m, p0, p1, p2);
    }
  }

  /** One or two of three have logged out. */
  lemma SomeGoneKept(m: Lists, p0: Player, p1: Player, p2: Player)
    requires Gone(m.status, p0) || Gone(m.status, p1) || Gone(m.status, p2)
    requires !Gone(m.status, p0) || !Gone(m.status, p1) || !Gone(m.status, p2)
    ensures Kept(Holding(m, multiset{p0} + multiset{p1} + multiset{p2}), Account(Remaining(m, p0, p1, p2)))
  {
    hide Account, Holding, Kept, Gone, DeletePlayer;
    var p, q, r := multiset{p0}, multiset{p1}, multiset{p2};
    var g0, g1, g2 := Gone(m.status, p0), Gone(m.status, p1), Gone(m.status, p2);
    InOrder(p, q, r);
    if g0 && g1 {
      TwoGoneKept(m, p0, p1, p2);
      FromNothing(r, q, p);
    } else if g0 && g2 {
      TwoGoneKept(m, p0, p2, p1);
      FromNothing(q, r, p);
      Commutes(q, r);
    } else if g1 && g2 {
      TwoGoneKept(m, p1, p2, p0);
      FromNothing(p, r, q);
      Commutes(p, r);
    } else if g0 {
      OneGoneKept(m, p0, p1, p2);
    } else if g1 {
      OneGoneKept(m, p1, p0, p2);
    } else {
      OneGoneKept(m, p2, p0, p1);
    }
  }

  lemma DealtKept(l: Lists, t: Triple)
    requires !SomeoneGone(l.status, t)
    ensures Kept(Account(l), Account(Dealt(l, t)))
  {
    var b0 := Account(l);
    var b1 := Deal(b0, t.pair.first);
    var b2 := Deal(b1, t.pair.second);
    var b3 := Deal(b2, t.third);
    assert !Gone(b1.status, t.pair.second) && !Gone(b2.status, t.third);
    hide Kept, SeatsOf, Gone;
    DealKept(b0, t.pair.first);
    DealKept(b1, t.pair.second);
    DealKept(b2, t.third);
    KeptTransitive(b0, b1, b2);
    KeptTransitive(b0, b2, b3);
    assert Account(Dealt(l, t)) == b3;
  }

  lemma HomeKept(l: Lists, h: multiset<Player>, p: Player)
    ensures Kept(Holding(l, h + multiset{p}), Holding(Home(l, p), h))
  {
    hide Holding, Kept;
    match KindOf(l.kind, p)
    case Ai => ReturnFromHand(l, h, p, true);
    case ReplaceAi => DepartFromHand(l, h, p, true);
    case User => DepartFromHand(l, h, p, false);
  }

  lemma RoundOverKept(l: Lists, i: nat)
    requires i < |l.three|
    ensures Kept(Account(l), Account(RoundOver(l, i)))
  {
    var t, m := l.three[i], ClearThree(l, i);
    var h := multiset{} + multiset{t.third};
    StandUpThree(l, i);
    InOrder(multiset{t.pair.first}, multiset{t.pair.second}, multiset{t.third});
    FromNothing(multiset{t.third}, multiset{t.pair.second}, multiset{t.pair.first});
    assert TripleSeats(t) == h + multiset{t.pair.second} + multiset{t.pair.first};
    hide Account, Holding, Kept, TripleSeats, ClearThree, Home;
    var m0 := Home(m, t.pair.first);
    var m1 := Home(m0, t.pair.second);
    HomeKept(m, h + multiset{t.pair.second}, t.pair.first);
    HomeKept(m0, h, t.pair.second);
    HomeKept(m1, multiset{}, t.third);
    HoldNothing(Home(m1, t.third));
    KeptTransitive(Account(l), Holding(m0, h + multiset{t.pair.second}), Holding(m1, h));
    KeptTransitive(Account(l), Holding(m1, h), Account(RoundOver(l, i)));
  }

  /** The third pass keeps everybody accounted for and drops nobody. */
  lemma {:induction false} PassThreeKept(l: Lists, i: nat, ready: set<Player>)
    requires Proper(Account(l)) && i <= |l.three|
    ensures var r := PassThree(l, i, ready); Kept(Account(l), Account(r)) && r.lost == l.lost
    decreases |l.three| - i
  {
    hide Kept, Proper, Account, LogoutThree, Dealt, RoundOver, SomeoneGone, CanDeal, AllOver;
    var b, r := Account(l), PassThree(l, i, ready);
    KeptRefl(b);
    if i < |l.three| {
      var t := l.three[i];
      StepThreeKeeps(l, i);
      if SomeoneGone(l.status, t) {
        var m := LogoutThree(l, i);
        LogoutThreeKept(l, i);
        ProperKept(b, Account(m));
        PassThreeKept(m, i, ready);
        KeptTransitive(b, Account(m), Account(r));
      } else {
        var m := if CanDeal(l.status, t, ready) then Dealt(l, t) else l;
        DealtKept(l, t);
        ProperKept(b, Account(m));
        StepThreeKeeps(m, i);
        if AllOver(m.status, t) {
          var n := RoundOver(m, i);
          RoundOverKept(m, i);
          ProperKept(Account(m), Account(n));
          KeptTransitive(b, Account(m), Account(n));
          PassThreeKept(n, i, ready);
          KeptTransitive(b, Account(n), Account(r));
        } else {
          PassThreeKept(m, i + 1, ready);
          KeptTransitive(b, Account(m), Account(r));
        }
      }
    }
  }

  lemma StepThreeKeeps(l: Lists, i: nat)
    requires i < |l.three|
    ensures LogoutThree(l, i).three == Without(l.three, i) && LogoutThree(l, i).lost == l.lost
    ensures LogoutThree(l, i).left == l.left && LogoutThree(l, i).status == l.status && LogoutThree(l, i).kind == l.kind
    ensures RoundOver(l, i).three == Without(l.three, i) && RoundOver(l, i).lost == l.lost && RoundOver(l, i).kind == l.kind
    ensures RoundOver(l, i).left == l.left + Humans(l.kind, l.three[i])
    ensures forall t :: Dealt(l, t).three == l.three && Dealt(l, t).lost == l.lost && Dealt(l, t).left == l.left && Dealt(l, t).kind == l.kind
  {
    var t, m := l.three[i], ClearThree(l, i);
    RemainingIs(m, t.pair.first, t.pair.second, t.third);
    hide Gone, Remaining;
    HomeIs(m, t.pair.first);
    HomeIs(Home(m, t.pair.first), t.pair.second);
    HomeIs(Home(Home(m, t.pair.first), t.pair.second), t.third);
    hide Home, Human;
    var a, b, c := Human(l.kind, t.pair.first), Human(l.kind, t.pair.second), Human(l.kind, t.third);
    assert ((l.left + a) + b) + c == l.left + ((a + b) + c);
  }

  lemma RemainingIs(m: Lists, p0: Player, p1: Player, p2: Player)
    ensures var r := Remaining(m, p0, p1, p2);
            r.three == m.three && r.lost == m.lost && r.left == m.left && r.status == m.status && r.kind == m.kind
  {
    hide Gone;
  }

  lemma HomeIs(l: Lists, p: Player)
    ensures var r := Home(l, p);
            && r.three == l.three && r.lost == l.lost && r.kind == l.kind && r.left == l.left + Human(l.kind, p)
            && (forall q :: q != p ==> StatusOf(r.status, q) == StatusOf(l.status, q))
  {
  }

  // ---------------------------------------------------------------- what the third pass does

  /** A table of three that stays: nobody has logged out and the round is not over. */
  ghost predicate SettledThree(status: map<Player, nat>, t: Triple) {
    !SomeoneGone(status, t) && !AllOver(status, t)
  }

  ghost predicate SettledTables(status: map<Player, nat>, three: seq<Triple>, i: nat) {
    i <= |three| && forall k :: 0 <= k < i ==> SettledThree(status, three[k])
  }

  /** Only the statuses of the players of one table differ. */
  ghost predicate OnlyAt(t: Triple, status: map<Player, nat>, other: map<Player, nat>) {
    forall p: Player :: p != t.pair.first && p != t.pair.second && p != t.third ==> StatusOf(status, p) == StatusOf(other, p)
  }

  lemma Apart(l: Lists, i: nat, p: Player)
    requires Proper(Account(l)) && i < |l.three| && p in SeatsThree(Without(l.three, i))
    ensures p != l.three[i].pair.first && p != l.three[i].pair.second && p != l.three[i].third
  {
    hide SeatsThree, SeatsTwo;
    var rest := SeatsThree(Without(l.three, i));
    SeatsThreeWithout(l.three, i);
    assert Total(Account(l))[p] <= 1;
    assert Total(Account(l))[p] >= Account(l).seats[p] >= SeatsThree(l.three)[p] == rest[p] + TripleSeats(l.three[i])[p];
    assert TripleSeats(l.three[i])[p] == 0;
  }

  lemma {:induction false} TailSeats(s: seq<Triple>, i: nat)
    requires i < |s|
    ensures forall p :: p in SeatsThree(s[i + 1..]) ==> p in SeatsThree(Without(s, i))
  {
    hide TripleSeats;
    if i == 0 {
      assert Without(s, i) == s[1..];
    } else {
      TailSeats(s[1..], i - 1);
      assert s[1..][i..] == s[i + 1..];
      assert Without(s, i)[0] == s[0] && Without(s, i)[1..] == Without(s[1..], i - 1);
    }
  }

  lemma HeadSeats(s: seq<Triple>, i: nat, k: nat)
    requires k < i < |s|
    ensures s[k].pair.first in SeatsThree(Without(s, i))
    ensures s[k].pair.second in SeatsThree(Without(s, i))
    ensures s[k].third in SeatsThree(Without(s, i))
  {
    hide SeatsThree;
    var r := Without(s, i);
    assert r[k] == s[k];
    SeatsThreeWithout(r, k);
  }

  /** Who goes home from the other tables does not depend on this one. */
  lemma OthersGoHome(l: Lists, i: nat, status: map<Player, nat>)
    requires Proper(Account(l)) && i < |l.three| && OnlyAt(l.three[i], status, l.status)
    ensures GoHome(status, l.kind, l.three[i + 1..]) == GoHome(l.status, l.kind, l.three[i + 1..])
  {
    hide Proper, Account, SeatsThree, Without, GoHome;
    TailSeats(l.three, i);
    forall p | p in SeatsThree(l.three[i + 1..]) ensures StatusOf(status, p) == StatusOf(l.status, p) {
      Apart(l, i, p);
    }
    GoHomeAgrees(status, l.status, l.kind, l.three[i + 1..]);
  }

  lemma OthersSettled(l: Lists, i: nat, status: map<Player, nat>)
    requires Proper(Account(l)) && i < |l.three| && OnlyAt(l.three[i], status, l.status)
    requires SettledTables(l.status, l.three, i)
    ensures SettledTables(status, l.three, i) && SettledTables(status, Without(l.three, i), i)
  {
    hide Proper, Account, SeatsThree;
    forall k | 0 <= k < i ensures SettledThree(status, l.three[k]) && Without(l.three, i)[k] == l.three[k] {
      var t := l.three[k];
      HeadSeats(l.three, i, k);
      Apart(l, i, t.pair.first);
      Apart(l, i, t.pair.second);
      Apart(l, i, t.third);
      assert SettledThree(l.status, t);
    }
  }

  lemma DealtOnlyAt(l: Lists, t: Triple)
    ensures OnlyAt(t, Dealt(l, t).status, l.status)
    ensures !AllOver(Dealt(l, t).status, t)
  {
  }

  lemma RoundOverOnlyAt(l: Lists, i: nat)
    requires i < |l.three|
    ensures OnlyAt(l.three[i], RoundOver(l, i).status, l.status)
  {
    var t, m := l.three[i], ClearThree(l, i);
    hide Home;
    HomeIs(m, t.pair.first);
    HomeIs(Home(m, t.pair.first), t.pair.second);
    HomeIs(Home(Home(m, t.pair.first), t.pair.second), t.third);
  }

  /** Whose turn it is: the head of what is left of the list. */
  lemma GoHomeHead(status: map<Player, nat>, kind: map<Player, Kind>, three: seq<Triple>, i: nat)
    requires i < |three|
    ensures GoHome(status, kind, three[i..]) ==
            (if AllOver(status, three[i]) then Humans(kind, three[i]) else []) + GoHome(status, kind, three[i + 1..])
    ensures Without(three, i)[i..] == three[i + 1..]
  {
    assert three[i..][1..] == three[i + 1..];
  }

  /**
   * The third pass leaves only settled tables. Those who go home are exactly the players, other
   * than AI players, of the tables whose round was over.
   */
  lemma {:induction false} PassThreeResult(l: Lists, i: nat, ready: set<Player>)
    requires Proper(Account(l)) && SettledTables(l.status, l.three, i)
    ensures var r := PassThree(l, i, ready);
            && r.left == l.left + GoHome(l.status, l.kind, l.three[i..])
            && SettledTables(r.status, r.three, |r.three|)
    decreases |l.three| - i
  {
    hide Kept, Proper, Account, LogoutThree, Dealt, RoundOver, Without, GoHome, Humans, OnlyAt, StatusOf;
    if i == |l.three| {
      assert l.three[i..] == [];
      NoTables(l.status, l.kind);
      assert l.left + [] == l.left;
    } else {
      var t := l.three[i];
      GoHomeHead(l.status, l.kind, l.three, i);
      StepThreeKeeps(l, i);
      NotBoth(l.status, t);
      hide SomeoneGone, CanDeal, AllOver;
      if SomeoneGone(l.status, t) {
        LogoutThreeKept(l, i);
        ProperKept(Account(l), Account(LogoutThree(l, i)));
        SameIsOnlyAt(t, l.status);
        OthersSettled(l, i, l.status);
        PassThreeResult(LogoutThree(l, i), i, ready);
      } else if CanDeal(l.status, t, ready) {
        DealtGoesOn(l, i);
        NotDealtTwice(l.status, t, ready);
        PassThreeResult(Dealt(l, t), i + 1, ready);
      } else if AllOver(l.status, t) {
        RoundOverGoesOn(l, i);
        PassThreeResult(RoundOver(l, i), i, ready);
        Assoc(l.left, Humans(l.kind, t), GoHome(l.status, l.kind, l.three[i + 1..]));
      } else {
        PassThreeResult(l, i + 1, ready);
      }
    }
  }

  lemma NoTables(status: map<Player, nat>, kind: map<Player, Kind>)
    ensures GoHome(status, kind, []) == []
  {
  }

  lemma NotBoth(status: map<Player, nat>, t: Triple)
    ensures SomeoneGone(status, t) ==> !AllOver(status, t)
  {
  }

  lemma NotDealtTwice(status: map<Player, nat>, t: Triple, ready: set<Player>)
    ensures CanDeal(status, t, ready) ==> !AllOver(status, t)
  {
  }

  lemma SameIsOnlyAt(t: Triple, status: map<Player, nat>)
    ensures OnlyAt(t, status, status)
  {
  }

  /** After dealing to a table the pass goes on with the next one. */
  lemma DealtGoesOn(l: Lists, i: nat)
    requires Proper(Account(l)) && i < |l.three| && SettledTables(l.status, l.three, i)
    requires !SomeoneGone(l.status, l.three[i])
    ensures var m := Dealt(l, l.three[i]);
            && Proper(Account(m)) && !AllOver(m.status, l.three[i])
            && m.three == l.three && m.left == l.left && m.kind == l.kind
            && SettledTables(m.status, m.three, i + 1)
            && GoHome(m.status, l.kind, l.three[i + 1..]) == GoHome(l.status, l.kind, l.three[i + 1..])
  {
    var t := l.three[i];
    var m := Dealt(l, t);
    DealtNotGone(l, t);
    DealtOnlyAt(l, t);
    DealtKept(l, t);
    StepThreeKeeps(l, i);
    hide Kept, Proper, Account, Dealt, GoHome, OnlyAt, SomeoneGone, AllOver;
    ProperKept(Account(l), Account(m));
    OthersGoHome(l, i, m.status);
    OthersSettled(l, i, m.status);
  }

  lemma DealtNotGone(l: Lists, t: Triple)
    ensures !SomeoneGone(Dealt(l, t).status, t)
  {
  }

  /** After clearing a table the pass goes on with the one that takes its place. */
  lemma RoundOverGoesOn(l: Lists, i: nat)
    requires Proper(Account(l)) && i < |l.three| && SettledTables(l.status, l.three, i)
    ensures var n := RoundOver(l, i);
            && Proper(Account(n)) && SettledTables(n.status, n.three, i)
            && n.left == l.left + Humans(l.kind, l.three[i]) && n.kind == l.kind
            && n.three == Without(l.three, i)
            && GoHome(n.status, l.kind, l.three[i + 1..]) == GoHome(l.status, l.kind, l.three[i + 1..])
  {
    var n := RoundOver(l, i);
    RoundOverOnlyAt(l, i);
    RoundOverKept(l, i);
    StepThreeKeeps(l, i);
    hide Kept, Proper, Account, RoundOver, GoHome, OnlyAt, Humans;
    ProperKept(Account(l), Account(n));
    OthersGoHome(l, i, n.status);
    OthersSettled(l, i, n.status);
  }

  /** The third pass takes no live human out of the seats but those whose round is over. */
  lemma {:induction false} ThirdPassLoses(l: Lists, ready: set<Player>)
    requires Proper(Account(l))
    ensures var r := PassThree(l, 0, ready);
            && Proper(Account(r)) && SettledTables(r.status, r.three, |r.three|)
            && LiveHumans(Account(r)) ==
               set p: Player | p in LiveHumans(Account(l)) && p !in GoHome(l.status, l.kind, l.three)
  {
    hide Proper, Kept, LiveHumans, PassThree, SeatsOf, GoHome, SettledThree;
    var r := PassThree(l, 0, ready);
    PassThreeKept(l, 0, ready);
    ProperKept(Account(l), Account(r));
    LiveHumansKept(Account(l), Account(r));
    PassThreeResult(l, 0, ready);
    assert l.three[0..] == l.three;
    var home := GoHome(l.status, l.kind, l.three);
    forall p: Player ensures multiset(r.left)[p] == multiset(l.left)[p] <==> p !in home {
      assert multiset(r.left) == multiset(l.left) + multiset(home);
      assert p in home <==> p in multiset(home);
    }
  }
}
