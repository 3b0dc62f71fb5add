/** A whole update of a room: the three passes in a row, and which live humans it takes out of their seats. */
module WholeUpdate {
  import opened Ledger
  import opened Seating
  import opened Passes
  import opened TablePasses
  import opened ThirdPass

  /** One update: the three passes, each with the waiting times it finds. */
  function Update(l: Lists, expired: set<Player>, expiredThen: set<Player>, ready: set<Player>): Lists {
    PassThree(TwoPasses(l, expired, expiredThen), 0, ready)
  }

  function TwoPasses(l: Lists, expired: set<Player>, expiredThen: set<Player>): Lists {
    PassTwo(PassOne(l, expired), 0, expiredThen)
  }

  // ---------------------------------------------------------------- AI players taken on

  /** The AI player the first pass takes on, if any. */
  ghost function HiredOne(l: Lists, expired: set<Player>): set<Player>
    decreases |l.one|
  {
    if |l.one| > 2 then HiredOne(if AnyGone(l.status, l.one[..3]) then DropBlock(l, 3) else SeatThree(l), expired)
    else if |l.one| == 1 && !Gone(l.status, l.one[0]) && l.one[0] in expired then {NextAi(l)}
    else {}
  }

  /** The AI players the second pass takes on. */
  ghost function HiredTwo(l: Lists, i: nat, expired: set<Player>): set<Player>
    requires i <= |l.two|
    decreases |l.two| - i
  {
    if i == |l.two| then {}
    else
      var t := l.two[i];
      if Gone(l.status, t.first) || Gone(l.status, t.second) then HiredTwo(LogoutTwo(l, i), i, expired)
      else if l.one != [] && !Gone(l.status, l.one[0]) then HiredTwo(JoinWaiter(l, i), i, expired)
      else if t.first in expired || t.second in expired then
        {NextAi(Skimmed(l))} + HiredTwo(JoinAi(Skimmed(l), i), i, expired)
      else HiredTwo(Skimmed(l), i + 1, expired)
  }

  ghost function Hired(l: Lists, expired: set<Player>, expiredThen: set<Player>): set<Player> {
    HiredOne(l, expired) + HiredTwo(PassOne(l, expired), 0, expiredThen)
  }

  /** Only the players taken on have changed. */
  ghost predicate Hires(a: Lists, b: Lists, hired: set<Player>) {
    && (forall p: Player :: StatusOf(b.status, p) == if p in hired then STARTING else StatusOf(a.status, p))
    && (forall p: Player :: KindOf(b.kind, p) == if p in hired then Ai else KindOf(a.kind, p))
  }

  lemma HiresNobody(a: Lists, b: Lists)
    requires b.status == a.status && b.kind == a.kind
    ensures Hires(a, b, {})
  {
  }

  lemma HiresTransitive(a: Lists, b: Lists, c: Lists, x: set<Player>, y: set<Player>)
    requires Hires(a, b, x) && Hires(b, c, y)
    ensures Hires(a, c, x + y)
    ensures x == {} ==> Hires(a, c, y)
  {
    hide StatusOf, KindOf;
  }

  /** One step of the second pass: which tables of three there are then, and who has been taken on. */
  lemma StepTwoIs(l: Lists, i: nat)
    requires i < |l.two|
    ensures LogoutTwo(l, i).three == l.three && Hires(l, LogoutTwo(l, i), {})
    ensures Skimmed(l).three == l.three && Hires(l, Skimmed(l), {})
    ensures JoinAi(Skimmed(l), i).three == l.three + [Triple(l.two[i], NextAi(Skimmed(l)))]
    ensures Hires(Skimmed(l), JoinAi(Skimmed(l), i), {NextAi(Skimmed(l))})
    ensures l.one != [] ==>
              JoinWaiter(l, i).three == l.three + [Triple(l.two[i], l.one[0])] && Hires(l, JoinWaiter(l, i), {})
  {
    hide Hires, Gone;
    LogoutTwoHires(l, i);
    HiresNobody(l, Skimmed(l));
    JoinAiHires(Skimmed(l), i);
    if l.one != [] {
      HiresNobody(l, JoinWaiter(l, i));
    }
  }

  lemma LogoutTwoHires(l: Lists, i: nat)
    requires i < |l.two|
    ensures LogoutTwo(l, i).three == l.three && Hires(l, LogoutTwo(l, i), {})
  {
    hide LogoutTwo, Hires;
    LogoutTwoIs(l, i);
    HiresNobody(l, LogoutTwo(l, i));
  }

  lemma JoinAiHires(l: Lists, i: nat)
    requires i < |l.two|
    ensures Hires(l, JoinAi(l, i), {NextAi(l)})
  {
    hide NextAi;
  }

  lemma {:induction false} PassOneHires(l: Lists, expired: set<Player>)
    ensures Hires(l, PassOne(l, expired), HiredOne(l, expired))
    decreases |l.one|
  {
    hide Hires, AnyGone, Gone, NextAi;
    if |l.one| > 2 {
      var m := if AnyGone(l.status, l.one[..3]) then DropBlock(l, 3) else SeatThree(l);
      PassOneHires(m, expired);
      HiresNobody(l, m);
      HiresTransitive(l, m, PassOne(l, expired), {}, HiredOne(l, expired));
    } else if |l.one| == 1 && !Gone(l.status, l.one[0]) && l.one[0] in expired {
      SeatWithAiHires(l);
    } else {
      HiresNobody(l, PassOne(l, expired));
    }
  }

  lemma SeatWithAiHires(l: Lists)
    requires |l.one| == 1
    ensures Hires(l, SeatWithAi(l), {NextAi(l)})
  {
    hide NextAi;
  }

  lemma {:induction false} PassTwoHires(l: Lists, i: nat, expired: set<Player>)
    requires i <= |l.two|
    ensures var r := PassTwo(l, i, expired); Hires(l, r, HiredTwo(l, i, expired)) && l.three <= r.three
    decreases |l.two| - i
  {
    hide Hires, Gone, NextAi, LogoutTwo, JoinWaiter, JoinAi, Skimmed;
    var r := PassTwo(l, i, expired);
    if i == |l.two| {
      HiresNobody(l, r);
    } else {
      var t, s := l.two[i], Skimmed(l);
      StepTwoIs(l, i);
      StepTwoKeeps(l, i);
      if Gone(l.status, t.first) || Gone(l.status, t.second) {
        var m := LogoutTwo(l, i);
        PassTwoHires(m, i, expired);
        HiresTransitive(l, m, r, {}, HiredTwo(m, i, expired));
      } else if l.one != [] && !Gone(l.status, l.one[0]) {
        var m := JoinWaiter(l, i);
        PassTwoHires(m, i, expired);
        HiresTransitive(l, m, r, {}, HiredTwo(m, i, expired));
      } else if t.first in expired || t.second in expired {
        var m := JoinAi(s, i);
        PassTwoHires(m, i, expired);
        HiresTransitive(s, m, r, {NextAi(s)}, HiredTwo(m, i, expired));
        HiresTransitive(l, s, r, {}, HiredTwo(l, i, expired));
      } else {
        PassTwoHires(s, i + 1, expired);
        HiresTransitive(l, s, r, {}, HiredTwo(s, i + 1, expired));
      }
    }
  }

  /** The first two passes change nothing about anybody but the players they take on, and no table of three. */
  lemma TwoPassesHire(l: Lists, expired: set<Player>, expiredThen: set<Player>)
    ensures var m := TwoPasses(l, expired, expiredThen); Hires(l, m, Hired(l, expired, expiredThen)) && l.three <= m.three
  {
    hide Hires, PassTwo, HiredOne, HiredTwo;
    var k := PassOne(l, expired);
    PassOneHires(l, expired);
    PassOneResult(l, expired);
    PassTwoHires(k, 0, expiredThen);
    HiresTransitive(l, k, TwoPasses(l, expired, expiredThen), HiredOne(l, expired), HiredTwo(k, 0, expiredThen));
  }

  // ---------------------------------------------------------------- they sit at no table of three yet

  lemma MoreAdded(a: multiset<Player>, b: multiset<Player>, c: multiset<Player>)
    requires b <= c
    ensures a + b <= a + c
  {
  }

  lemma {:induction false} SeatsThreeMore(s: seq<Triple>, more: seq<Triple>)
    ensures SeatsThree(s) <= SeatsThree(s + more)
  {
    hide TripleSeats;
    if s != [] {
      SeatsThreeMore(s[1..], more);
      assert (s + more)[0] == s[0] && (s + more)[1..] == s[1..] + more;
      MoreAdded(TripleSeats(s[0]), SeatsThree(s[1..]), SeatsThree(s[1..] + more));
    }
  }

  lemma NewcomerSitsNowhere(l: Lists)
    requires Proper(Account(l))
    ensures NextAi(l) !in SeatsThree(l.three)
  {
    hide SeatsTwo, SeatsThree, NextAi, Proper;
    NewcomerIsNotSeated(l);
    assert SeatsThree(l.three)[NextAi(l)] <= Account(l).seats[NextAi(l)];
  }

  lemma {:induction false} HiredOneSitsNowhere(l: Lists, expired: set<Player>, p: Player)
    requires Proper(Account(l)) && p in HiredOne(l, expired)
    ensures p !in SeatsThree(l.three)
    decreases |l.one|
  {
    hide Kept, Proper, Account, DropBlock, AnyGone, Gone, SeatsThree, NextAi;
    if |l.one| > 2 {
      if AnyGone(l.status, l.one[..3]) {
        DropBlockKept(l, 3);
        DropBlockIs(l, 3);
        ProperKept(Account(l), Account(DropBlock(l, 3)));
        HiredOneSitsNowhere(DropBlock(l, 3), expired, p);
      } else {
        SeatThreeKept(l);
        HiredOneSitsNowhere(SeatThree(l), expired, p);
        SeatsThreeMore(l.three, [Triple(Pair(l.one[0], l.one[1]), l.one[2])]);
      }
    } else {
      NewcomerSitsNowhere(l);
    }
  }

  lemma {:induction false} HiredTwoSitsNowhere(l: Lists, i: nat, expired: set<Player>, p: Player)
    requires Proper(Account(l)) && i <= |l.two| && p in HiredTwo(l, i, expired)
    ensures p !in SeatsThree(l.three)
    decreases |l.two| - i
  {
    hide Kept, Proper, Account, Gone, LogoutTwo, JoinWaiter, JoinAi, Skimmed, SeatsThree, NextAi, Hires;
    var t, s := l.two[i], Skimmed(l);
    StepTwoIs(l, i);
    StepTwoKeeps(l, i);
    if Gone(l.status, t.first) || Gone(l.status, t.second) {
      LogoutTwoKept(l, i);
      ProperKept(Account(l), Account(LogoutTwo(l, i)));
      HiredTwoSitsNowhere(LogoutTwo(l, i), i, expired, p);
    } else if l.one != [] && !Gone(l.status, l.one[0]) {
      JoinWaiterKept(l, i);
      HiredTwoSitsNowhere(JoinWaiter(l, i), i, expired, p);
      SeatsThreeMore(l.three, [Triple(t, l.one[0])]);
    } else {
      SkimmedKept(l);
      ProperKept(Account(l), Account(s));
      if t.first in expired || t.second in expired {
        NewcomerSitsNowhere(s);
        if p != NextAi(s) {
          JoinAiKept(s, i);
          ProperKept(Account(s), Account(JoinAi(s, i)));
          HiredTwoSitsNowhere(JoinAi(s, i), i, expired, p);
          SeatsThreeMore(l.three, [Triple(t, NextAi(s))]);
        }
      } else {
        HiredTwoSitsNowhere(s, i + 1, expired, p);
      }
    }
  }

  lemma HiredSitNowhere(l: Lists, expired: set<Player>, expiredThen: set<Player>, p: Player)
    requires Proper(Account(l)) && p in Hired(l, expired, expiredThen)
    ensures p !in SeatsThree(l.three)
  {
    hide Kept, Proper, Account, SeatsThree, HiredOne, HiredTwo, PassOne;
    var k := PassOne(l, expired);
    if p in HiredOne(l, expired) {
      HiredOneSitsNowhere(l, expired, p);
    } else {
      PassOneKept(l, expired);
      ProperKept(Account(l), Account(k));
      PassOneResult(l, expired);
      HiredTwoSitsNowhere(k, 0, expiredThen, p);
      SeatsThreeMore(l.three, Threes(l.status, l.one));
    }
  }

  // ---------------------------------------------------------------- the tables they form

  function Members(t: Triple): set<Player> {
    {t.pair.first, t.pair.second, t.third}
  }

  /** Everyone on the waiting list or at a table of two. */
  ghost function Waiting(l: Lists): set<Player> {
    (set p | p in l.one) + (set t | t in l.two :: t.first) + (set t | t in l.two :: t.second)
  }

  /** The tables of three formed by the first two passes. */
  ghost function Formed(l: Lists, expired: set<Player>, expiredThen: set<Player>): seq<Triple> {
    var m := TwoPasses(l, expired, expiredThen);
    if l.three <= m.three then m.three[|l.three|..] else []
  }

  /** Those waiting, at tables of two, and at the tables of three from the n-th on are all among `w`. */
  ghost predicate From(l: Lists, n: nat, w: set<Player>) {
    && (forall p | p in l.one :: p in w)
    && (forall t | t in l.two :: t.first in w && t.second in w)
    && n <= |l.three| && (forall k | n <= k < |l.three| :: Members(l.three[k]) <= w)
  }

  lemma DropFrom(l: Lists, k: nat, n: nat, w: set<Player>)
    requires k <= |l.one| && From(l, n, w)
    ensures From(DropBlock(l, k), n, w)
  {
    hide Dead, Live, Members;
  }

  lemma {:induction false} PassOneFrom(l: Lists, expired: set<Player>, n: nat, w: set<Player>)
    requires From(l, n, w) && HiredOne(l, expired) <= w
    ensures From(PassOne(l, expired), n, w)
    decreases |l.one|
  {
    hide AnyGone, Gone, NextAi, From, DropBlock, SeatThree, SeatWithAi, SeatTwo;
    if |l.one| > 2 {
      if AnyGone(l.status, l.one[..3]) {
        DropBlockIs(l, 3);
        DropFrom(l, 3, n, w);
        PassOneFrom(DropBlock(l, 3), expired, n, w);
      } else {
        SeatThreeIs(l);
        SeatThreeFrom(l, n, w);
        PassOneFrom(SeatThree(l), expired, n, w);
      }
    } else {
      DropFrom(l, |l.one|, n, w);
      SeatTwoFrom(l, n, w);
      SeatWithAiFrom(l, n, w);
    }
  }

  lemma SeatThreeFrom(l: Lists, n: nat, w: set<Player>)
    requires |l.one| > 2 && From(l, n, w)
    ensures From(SeatThree(l), n, w)
  {
  }

  lemma SeatTwoFrom(l: Lists, n: nat, w: set<Player>)
    requires From(l, n, w)
    ensures |l.one| == 2 ==> From(SeatTwo(l), n, w)
  {
    hide Members;
  }

  lemma SeatWithAiFrom(l: Lists, n: nat, w: set<Player>)
    requires From(l, n, w)
    ensures |l.one| == 1 && NextAi(l) in w ==> From(SeatWithAi(l), n, w)
  {
    hide Members, NextAi;
  }

  lemma StepTwoFrom(l: Lists, i: nat, n: nat, w: set<Player>)
    requires i < |l.two| && From(l, n, w)
    ensures From(LogoutTwo(l, i), n, w)
    ensures l.one != [] ==> From(JoinWaiter(l, i), n, w)
    ensures From(Skimmed(l), n, w)
    ensures NextAi(l) in w ==> From(JoinAi(l, i), n, w)
  {
    LogoutTwoFrom(l, i, n, w);
    if l.one != [] {
      DropFrom(l, 1, n, w);
      JoinFrom(l, i, l.one[1..], l.one[0], n, w);
    }
    if NextAi(l) in w {
      JoinFrom(l, i, l.one, NextAi(l), n, w);
    }
    hide NextAi, LogoutTwo, DropBlock, Gone, Members;
  }

  lemma JoinFrom(l: Lists, i: nat, one: seq<Player>, p: Player, n: nat, w: set<Player>)
    requires i < |l.two| && From(l, n, w) && p in w && forall q | q in one :: q in l.one
    ensures From(l.(one := one, two := Without(l.two, i), three := l.three + [Triple(l.two[i], p)]), n, w)
  {
  }

  lemma LogoutTwoFrom(l: Lists, i: nat, n: nat, w: set<Player>)
    requires i < |l.two| && From(l, n, w)
    ensures From(LogoutTwo(l, i), n, w)
  {
    LogoutTwoIs(l, i);
    hide LogoutTwo, Members;
    assert l.two[i] in l.two;
    assert forall t | t in Without(l.two, i) :: t in l.two;
  }

  lemma {:induction false} PassTwoFrom(l: Lists, i: nat, expired: set<Player>, n: nat, w: set<Player>)
    requires i <= |l.two| && From(l, n, w) && HiredTwo(l, i, expired) <= w
    ensures From(PassTwo(l, i, expired), n, w)
    decreases |l.two| - i
  {
    hide Gone, NextAi, LogoutTwo, JoinWaiter, JoinAi, Skimmed, From;
    if i < |l.two| {
      var t, s := l.two[i], Skimmed(l);
      StepTwoKeeps(l, i);
      StepTwoFrom(l, i, n, w);
      StepTwoFrom(s, i, n, w);
      if Gone(l.status, t.first) || Gone(l.status, t.second) {
        PassTwoFrom(LogoutTwo(l, i), i, expired, n, w);
      } else if l.one != [] && !Gone(l.status, l.one[0]) {
        PassTwoFrom(JoinWaiter(l, i), i, expired, n, w);
      } else if t.first in expired || t.second in expired {
        PassTwoFrom(JoinAi(s, i), i, expired, n, w);
      } else {
        PassTwoFrom(s, i + 1, expired, n, w);
      }
    }
  }

  /** A table formed now is over at once if all its players waited, and were marked so, before the update. */
  ghost predicate OverAtOnce(l: Lists, hired: set<Player>, t: Triple) {
    AllOver(l.status, t) && Members(t) !! hired
  }

  /** Whoever sits at a table formed by the update was waiting or at a table of two, or was taken on. */
  lemma FormedFromWaiting(l: Lists, expired: set<Player>, expiredThen: set<Player>)
    ensures forall t | t in Formed(l, expired, expiredThen) :: Members(t) <= Waiting(l) + Hired(l, expired, expiredThen)
  {
    hide PassOne, PassTwo, HiredOne, HiredTwo, Members;
    var w := Waiting(l) + Hired(l, expired, expiredThen);
    var m := TwoPasses(l, expired, expiredThen);
    PassOneFrom(l, expired, |l.three|, w);
    PassTwoFrom(PassOne(l, expired), 0, expiredThen, |l.three|, w);
    assert From(m, |l.three|, w);
  }

  // ---------------------------------------------------------------- who loses his seat

  lemma {:induction false} GoHomeConcat(status: map<Player, nat>, kind: map<Player, Kind>, s: seq<Triple>, more: seq<Triple>)
    ensures GoHome(status, kind, s + more) == GoHome(status, kind, s) + GoHome(status, kind, more)
  {
    hide AllOver, Humans;
    if s == [] {
      assert s + more == more;
    } else {
      assert (s + more)[0] == s[0] && (s + more)[1..] == s[1..] + more;
      GoHomeConcat(status, kind, s[1..], more);
    }
  }

  lemma {:induction false} GoHomeMeans(status: map<Player, nat>, kind: map<Player, Kind>, s: seq<Triple>, p: Player)
    ensures p in GoHome(status, kind, s) <==>
            KindOf(kind, p) != Ai && exists t | t in s :: AllOver(status, t) && p in Members(t)
  {
    hide AllOver, KindOf;
    if s != [] {
      GoHomeMeans(status, kind, s[1..], p);
      assert p in Humans(kind, s[0]) <==> KindOf(kind, p) != Ai && p in Members(s[0]);
      assert forall t :: t in s <==> t == s[0] || t in s[1..];
    }
  }

  lemma MembersSeated(s: seq<Triple>, t: Triple)
    requires t in s
    ensures forall p | p in Members(t) :: p in SeatsThree(s)
  {
    hide SeatsThree;
    var k :| 0 <= k < |s| && s[k] == t;
    SeatsThreeWithout(s, k);
  }

  /** Which tables the third pass finds over, in terms of the room before the update. */
  lemma OverThen(l: Lists, expired: set<Player>, expiredThen: set<Player>, t: Triple)
    requires Proper(Account(l))
    ensures var m, hired := TwoPasses(l, expired, expiredThen), Hired(l, expired, expiredThen);
            && (AllOver(m.status, t) <==> OverAtOnce(l, hired, t))
            && (t in l.three ==> (AllOver(m.status, t) <==> AllOver(l.status, t)))
  {
    hide Proper, Account, SeatsThree, Hired, TwoPasses, StatusOf, KindOf;
    TwoPassesHire(l, expired, expiredThen);
    if t in l.three {
      MembersSeated(l.three, t);
      forall p | p in Hired(l, expired, expiredThen) ensures p !in Members(t) {
        HiredSitNowhere(l, expired, expiredThen, p);
      }
    }
  }

  lemma StaysHuman(l: Lists, expired: set<Player>, expiredThen: set<Player>, p: Player)
    requires Proper(Account(l)) && p in LiveHumans(Account(l))
    ensures KindOf(l.kind, p) != Ai
    ensures KindOf(TwoPasses(l, expired, expiredThen).kind, p) != Ai <==> p !in Hired(l, expired, expiredThen)
  {
    hide Proper, SeatsOf, TwoPasses, Hired;
    TwoPassesHire(l, expired, expiredThen);
  }

  /** Whoever is taken on was at no table that is over. */
  lemma HiredNotOver(l: Lists, expired: set<Player>, expiredThen: set<Player>, p: Player)
    requires Proper(Account(l)) && p in Hired(l, expired, expiredThen)
    ensures p !in GoHome(l.status, l.kind, l.three)
    ensures forall t | OverAtOnce(l, Hired(l, expired, expiredThen), t) :: p !in Members(t)
  {
    hide Proper, Account, SeatsThree, Hired, GoHome, AllOver, KindOf;
    HiredSitNowhere(l, expired, expiredThen, p);
    GoHomeMeans(l.status, l.kind, l.three, p);
    forall t | t in l.three ensures p !in Members(t) {
      MembersSeated(l.three, t);
    }
  }

  /** Those who go home were at a table whose round was over, or sit at a formed one that is over at once. */
  lemma GoneHome(l: Lists, expired: set<Player>, expiredThen: set<Player>, p: Player)
    requires Proper(Account(l)) && p in LiveHumans(Account(l))
    ensures var m := TwoPasses(l, expired, expiredThen);
            p in GoHome(m.status, m.kind, m.three) <==>
              || p in GoHome(l.status, l.kind, l.three)
              || exists t | t in Formed(l, expired, expiredThen) ::
                   OverAtOnce(l, Hired(l, expired, expiredThen), t) && p in Members(t)
  {
    hide Proper, Kept, SeatsOf, TwoPasses, Hired, AllOver, OverAtOnce, Gone, GoHome, Members;
    var m, hired := TwoPasses(l, expired, expiredThen), Hired(l, expired, expiredThen);
    TwoPassesHire(l, expired, expiredThen);
    GoHomeMeans(m.status, m.kind, m.three, p);
    GoHomeMeans(l.status, l.kind, l.three, p);
    assert m.three == l.three + Formed(l, expired, expiredThen);
    forall t ensures (AllOver(m.status, t) <==> OverAtOnce(l, hired, t)) && (t in l.three ==> (AllOver(m.status, t) <==> AllOver(l.status, t))) {
      OverThen(l, expired, expiredThen, t);
    }
    StaysHuman(l, expired, expiredThen, p);
    if p in hired {
      HiredNotOver(l, expired, expiredThen, p);
    }
  }

  /**
   * A whole update keeps every player in at most one place. It takes out of the seats exactly the
   * live humans dropped from a mixed block of the waiting list, those at tables whose round was over
   * before the update, and those at tables formed by it of players who were all marked so already.
   */
  lemma {:induction false} UpdateLoses(l: Lists, expired: set<Player>, expiredThen: set<Player>, ready: set<Player>)
    requires Proper(Account(l))
    ensures var r := Update(l, expired, expiredThen, ready);
            && Proper(Account(r))
            && LiveHumans(Account(r)) == set p: Player |
                 && p in LiveHumans(Account(l)) && p !in Dropped(l.status, l.one)
                 && p !in GoHome(l.status, l.kind, l.three)
                 && forall t | t in Formed(l, expired, expiredThen) ::
                      OverAtOnce(l, Hired(l, expired, expiredThen), t) ==> p !in Members(t)
  {
    hide Proper, LiveHumans, PassOne, PassTwo, PassThree, Dropped, GoHome, MixedBlock, SettledTables, Account, OverAtOnce, Formed;
    FirstPassLoses(l, expired);
    SecondPassLosesNobody(PassOne(l, expired), expiredThen);
    ThirdPassLoses(TwoPasses(l, expired, expiredThen), ready);
    forall p | p in LiveHumans(Account(l)) {
      GoneHome(l, expired, expiredThen, p);
    }
  }

  /** If nobody waiting is marked as having finished a round, only the tables there were can send players home. */
  lemma UpdateLosesFinished(l: Lists, expired: set<Player>, expiredThen: set<Player>, ready: set<Player>)
    requires Proper(Account(l)) && forall p | p in Waiting(l) :: StatusOf(l.status, p) != ROUNDOVERED
    ensures LiveHumans(Account(Update(l, expired, expiredThen, ready))) == set p: Player |
              p in LiveHumans(Account(l)) && p !in Dropped(l.status, l.one) && p !in GoHome(l.status, l.kind, l.three)
  {
    hide Proper, LiveHumans, Update, Dropped, GoHome, Account, Formed, Hired, Waiting, StatusOf;
    UpdateLoses(l, expired, expiredThen, ready);
    FormedFromWaiting(l, expired, expiredThen);
    forall t | t in Formed(l, expired, expiredThen) ensures !OverAtOnce(l, Hired(l, expired, expiredThen), t) {
      assert t.third in Members(t) && t.third in Waiting(l) + Hired(l, expired, expiredThen);
    }
  }
}
