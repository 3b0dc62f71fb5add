/** The room, which updates its waiting list and its tables in place. */
module Rooms {
  import opened Ledger
  import opened Seating
  import opened Passes
  import T = TablePasses
  import H = ThirdPass
  import W = WholeUpdate

  datatype Maybe = Nobody | Somebody(player: Player)

  class Room {
    var one: seq<Player>
    var two: seq<Pair>
    var three: seq<Triple>
    var pool: seq<Player>
    var nextId: nat
    var status: map<Player, nat>
    var kind: map<Player, Kind>
    ghost var deleted: seq<Player>
    ghost var left: seq<Player>
    ghost var lost: seq<Player>

    ghost function Abs(): Lists
      reads this
    {
      Lists(one, two, three, pool, deleted, left, lost, nextId, status, kind)
    }

    /** Nobody is in two places. */
    ghost predicate Valid()
      reads this
    {
      Proper(Account(Abs()))
    }

    // -------------------------------------------------------------- the waiting list

    /** The first waiting player; a logged-out one is deleted and nobody returned. */
    method GetPlayerFromOne() returns (r: Maybe)
      modifies this`one, this`deleted
      ensures r.Somebody? <==> old(one) != [] && !Gone(status, old(one)[0])
      ensures r.Somebody? ==> r.player == old(one)[0]
      ensures one == if old(one) == [] then [] else old(one)[1..]
      ensures deleted == old(deleted) + if old(one) != [] then If(Gone(status, old(one)[0]), old(one)[0]) else []
    {
      if one == [] {
        return Nobody;
      }
      assert deleted + [] == deleted;
      var player := one[0];
      one := one[1..];
      if Gone(status, player) {
        deleted := deleted + [player];
        return Nobody;
      }
      return Somebody(player);
    }

    /** An AI player from the pool, or a new one; it starts at once. */
    method GetAiPlayer() returns (p: Player)
      modifies this`pool, this`nextId, this`status, this`kind
      ensures p == NextAi(old(Abs())) && Abs() == Engaged(old(Abs()))
    {
      if pool == [] {
        pool := pool + [nextId];
        nextId := nextId + 1;
      }
      p := pool[|pool| - 1];
      pool := pool[..|pool| - 1];
      status, kind := status[p := STARTING], kind[p := Ai];
    }

    method UpdateOne(expired: set<Player>)
      modifies this
      ensures Abs() == PassOne(old(Abs()), expired)
    {
      hide Gone, AnyGone, NextAi, DropBlock, T.Release;
      while one != []
        invariant PassOne(Abs(), expired) == PassOne(old(Abs()), expired)
        decreases |one|
      {
        if |one| > 2 {
          TakeThree();
        } else if |one| == 2 {
          TakeTwo();
        } else {
          var stop := TakeOne(expired);
          if stop {
            break;
          }
        }
      }
    }

    /** More than two are waiting: three are taken, and seated if all of them are there. */
    method TakeThree()
      requires |one| > 2
      modifies this`one, this`three, this`deleted, this`lost
      ensures Abs() == if AnyGone(status, old(one)[..3]) then DropBlock(old(Abs()), 3) else SeatThree(old(Abs()))
      ensures |one| < |old(one)|
    {
      BlockOfThree(status, one[..3]);
      hide Gone, Dead, Live, AnyGone, If;
      ghost var a, b, c := one[0], one[1], one[2];
      var p0 := GetPlayerFromOne();
      var p1 := GetPlayerFromOne();
      var p2 := GetPlayerFromOne();
      assert one == old(one)[3..];
      Append3(old(deleted), If(Gone(status, a), a), If(Gone(status, b), b), If(Gone(status, c), c));
      assert deleted == old(deleted) + Dead(status, old(one)[..3]);
      if p0.Nobody? || p1.Nobody? || p2.Nobody? {
        // those who were returned are in no list any more
        lost := lost + (Returned(p0) + Returned(p1) + Returned(p2));
        ReturnedIf(p0, a, status);
        ReturnedIf(p1, b, status);
        ReturnedIf(p2, c, status);
      } else {
        three := three + [Triple(Pair(p0.player, p1.player), p2.player)];
        NoneDead(status, old(one)[..3]);
      }
    }

    /** Two are waiting. */
    method TakeTwo()
      requires |one| == 2
      modifies this`one, this`two, this`deleted, this`lost
      ensures Abs() == if AnyGone(status, old(one)) then DropBlock(old(Abs()), 2) else SeatTwo(old(Abs()))
      ensures one == []
    {
      BlockOfTwo(status, one);
      hide Gone, Dead, Live, AnyGone;
      assert one[..2] == one && one[2..] == [];
      var p0 := GetPlayerFromOne();
      var p1 := GetPlayerFromOne();
      if p0.Nobody? || p1.Nobody? {
        lost := lost + (Returned(p0) + Returned(p1));
      } else {
        two := two + [Pair(p0.player, p1.player)];
      }
    }

    /** One is waiting; `stop` leaves the loop. */
    method TakeOne(expired: set<Player>) returns (stop: bool)
      requires |one| == 1
      modifies this`one, this`two, this`deleted, this`pool, this`nextId, this`status, this`kind
      ensures Abs() == PassOne(old(Abs()), expired)
      ensures stop || one == []
      ensures PassOne(Abs(), expired) == Abs()
    {
      BlockOfOne(status, one);
      hide Gone, Dead, Live, AnyGone;
      assert one[..1] == one && one[1..] == [];
      var p0 := GetPlayerFromOne();
      if p0.Nobody? {
        assert lost + [] == lost;
        return true;
      }
      if p0.player in expired {
        SameAi(Abs(), old(Abs()));
        var p1 := GetAiPlayer();
        two := two + [Pair(p0.player, p1)];
        return false;
      }
      one := one + [p0.player];
      return true;
    }

    // -------------------------------------------------------------- tables of two

    method Release(p: Player)
      modifies this`pool, this`deleted
      ensures Abs() == T.Release(old(Abs()), p)
    {
      if KindOf(kind, p) == Ai {
        pool := pool + [p];
      } else {
        deleted := deleted + [p];
      }
    }

    method OutTwo(p: Player)
      modifies this`pool, this`one
      ensures Abs() == T.OutTwo(old(Abs()), p)
    {
      if KindOf(kind, p) == Ai {
        pool := pool + [p];
      } else {
        one := one + [p];
      }
    }

    /** Deals with logged-out players of table `i`, which the caller then erases. */
    method LogoutTwo(i: nat) returns (logout: bool)
      requires i < |two|
      modifies this`one, this`pool, this`deleted
      ensures logout <==> Gone(status, two[i].first) || Gone(status, two[i].second)
      ensures if logout then T.ClearTwo(Abs(), i) == T.LogoutTwo(old(Abs()), i) else Abs() == old(Abs())
    {
      hide Gone;
      var p0, p1 := two[i].first, two[i].second;
      var logout0, logout1 := Gone(status, p0), Gone(status, p1);
      logout := true;
      if !logout0 && !logout1 {
        logout := false;
      } else if !logout1 {
        Release(p0);
        OutTwo(p1);
      } else if !logout0 {
        OutTwo(p0);
        Release(p1);
      } else {
        Release(p0);
        Release(p1);
      }
    }

    method UpdateTwo(expired: set<Player>)
      modifies this
      ensures Abs() == T.PassTwo(old(Abs()), 0, expired)
    {
      hide Gone, T.LogoutTwo, NextAi;
      var i := 0;
      while i < |two|
        invariant i <= |two| && T.PassTwo(Abs(), i, expired) == T.PassTwo(old(Abs()), 0, expired)
        decreases |two| - i
      {
        ghost var l := Abs();
        T.StepTwoKeeps(l, i);
        var t := two[i];
        var logout := LogoutTwo(i);
        if logout {
          two := Without(two, i);
          assert Abs() == T.LogoutTwo(l, i);
        } else {
          var p2 := GetPlayerFromOne();
          SkimmedTo(l, p2, one, deleted);
          if t.first in expired || t.second in expired || p2.Somebody? {
            var third;
            if p2.Nobody? {
              third := GetAiPlayer();
            } else {
              third := p2.player;
            }
            three := three + [Triple(t, third)];
            two := Without(two, i);
          } else {
            i := i + 1;
          }
        }
      }
    }

    // -------------------------------------------------------------- tables of three

    method LogoutThree(i: nat) returns (logout: bool)
      requires i < |three|
      modifies this`one, this`two, this`pool, this`deleted
      ensures logout <==> H.SomeoneGone(status, three[i])
      ensures if logout then T.ClearThree(Abs(), i) == H.LogoutThree(old(Abs()), i) else Abs() == old(Abs())
    {
      hide Gone;
      var p0, p1, p2 := three[i].pair.first, three[i].pair.second, three[i].third;
      var g0, g1, g2 := Gone(status, p0), Gone(status, p1), Gone(status, p2);
      logout := true;
      if g0 && g1 && g2 {
        Release(p0);
        Release(p1);
        Release(p2);
      } else if g0 && g1 {
        one, deleted := one + [p2], deleted + [p0] + [p1];
      } else if g0 && g2 {
        one, deleted := one + [p1], deleted + [p0] + [p2];
      } else if g1 && g2 {
        one, deleted := one + [p0], deleted + [p1] + [p2];
      } else if g0 {
        two, deleted := two + [Pair(p1, p2)], deleted + [p0];
      } else if g1 {
        two, deleted := two + [Pair(p0, p2)], deleted + [p1];
      } else if g2 {
        two, deleted := two + [Pair(p0, p1)], deleted + [p2];
      } else {
        logout := false;
      }
    }

    method DealCards(t: Triple)
      modifies this`status
      ensures Abs() == H.Dealt(old(Abs()), t)
    {
      status := status[t.pair.first := DEALING_CARD];
      status := status[t.pair.second := DEALING_CARD];
      status := status[t.third := DEALING_CARD];
    }

    /** One player of a table whose round is over. */
    method ReleaseAiPlayer(p: Player)
      modifies this`status, this`pool, this`left
      ensures Abs() == H.Home(old(Abs()), p)
    {
      if KindOf(kind, p) != User {
        status := status[p := LOG_OUTED];
      }
      if KindOf(kind, p) == Ai {
        pool := pool + [p];
      } else {
        left := left + [p];
      }
    }

    method RoundOver(i: nat) returns (over: bool)
      requires i < |three|
      modifies this`status, this`pool, this`left
      ensures over <==> AllOver(old(status), three[i])
      ensures if over then T.ClearThree(Abs(), i) == H.RoundOver(old(Abs()), i) else Abs() == old(Abs())
    {
      var t := three[i];
      over := AllOver(status, t);
      if over {
        ghost var l := Abs();
        hide H.Home;
        ReleaseAiPlayer(t.pair.first);
        ReleaseAiPlayer(t.pair.second);
        ReleaseAiPlayer(t.third);
        HomeCommutes(l, i, t.pair.first);
        HomeCommutes(H.Home(l, t.pair.first), i, t.pair.second);
        HomeCommutes(H.Home(H.Home(l, t.pair.first), t.pair.second), i, t.third);
      }
    }

    method UpdateThree(ready: set<Player>)
      modifies this
      ensures Abs() == H.PassThree(old(Abs()), 0, ready)
    {
      hide H.SomeoneGone, H.LogoutThree, H.RoundOver, AllOver, H.CanDeal, H.Dealt;
      var i := 0;
      while i < |three|
        invariant i <= |three| && H.PassThree(Abs(), i, ready) == H.PassThree(old(Abs()), 0, ready)
        decreases |three| - i
      {
        ghost var l := Abs();
        var t := three[i];
        H.StepThreeKeeps(l, i);
        var logout := LogoutThree(i);
        if logout {
          three := Without(three, i);
          assert Abs() == H.LogoutThree(l, i);
        } else {
          if H.CanDeal(status, t, ready) {
            DealCards(t);
          }
          ghost var m := Abs();
          H.StepThreeKeeps(m, i);
          var over := RoundOver(i);
          if over {
            three := Without(three, i);
            assert Abs() == H.RoundOver(m, i);
          } else {
            i := i + 1;
          }
        }
      }
    }

    /** The room's update, after the players' own: nobody is lost but by a mixed block or a finished round. */
    method Update(expired: set<Player>, expiredThen: set<Player>, ready: set<Player>)
      requires Valid()
      modifies this
      ensures Valid() && Abs() == W.Update(old(Abs()), expired, expiredThen, ready)
      ensures H.SettledTables(status, three, |three|)
    {
      hide Proper, Account, PassOne, T.PassTwo, H.PassThree, H.SettledTables;
      ghost var l := Abs();
      UpdateOne(expired);
      FirstPassLoses(l, expired);
      ghost var m := Abs();
      UpdateTwo(expiredThen);
      T.SecondPassLosesNobody(m, expiredThen);
      ghost var n := Abs();
      UpdateThree(ready);
      H.ThirdPassLoses(n, ready);
    }
  }

  // ---------------------------------------------------------------- blocks of the waiting list

  ghost function Returned(r: Maybe): seq<Player> {
    if r.Nobody? then [] else [r.player]
  }

  lemma ReturnedIf(r: Maybe, p: Player, status: map<Player, nat>)
    requires r == if Gone(status, p) then Nobody else Somebody(p)
    ensures Returned(r) == If(!Gone(status, p), p)
  {
  }

  lemma Append3(s: seq<Player>, a: seq<Player>, b: seq<Player>, c: seq<Player>)
    ensures ((s + a) + b) + c == s + (a + b + c)
    ensures s + [] == s
  {
  }

  function If(here: bool, p: Player): seq<Player> {
    if here then [p] else []
  }

  lemma BlockHead(status: map<Player, nat>, b: seq<Player>)
    requires b != []
    ensures AnyGone(status, b) <==> Gone(status, b[0]) || AnyGone(status, b[1..])
    ensures Dead(status, b) == If(Gone(status, b[0]), b[0]) + Dead(status, b[1..])
    ensures Live(status, b) == If(!Gone(status, b[0]), b[0]) + Live(status, b[1..])
  {
    hide Gone;
  }

  lemma BlockOfThree(status: map<Player, nat>, b: seq<Player>)
    requires |b| == 3
    ensures AnyGone(status, b) <==> Gone(status, b[0]) || Gone(status, b[1]) || Gone(status, b[2])
    ensures Dead(status, b) == If(Gone(status, b[0]), b[0]) + If(Gone(status, b[1]), b[1]) + If(Gone(status, b[2]), b[2])
    ensures Live(status, b) == If(!Gone(status, b[0]), b[0]) + If(!Gone(status, b[1]), b[1]) + If(!Gone(status, b[2]), b[2])
  {
    BlockHead(status, b);
    hide Gone, Dead, Live, AnyGone;
    BlockOfTwo(status, b[1..]);
    assert b[1..][0] == b[1] && b[1..][1] == b[2];
    Assoc(If(Gone(status, b[0]), b[0]), If(Gone(status, b[1]), b[1]), If(Gone(status, b[2]), b[2]));
    Assoc(If(!Gone(status, b[0]), b[0]), If(!Gone(status, b[1]), b[1]), If(!Gone(status, b[2]), b[2]));
  }

  lemma BlockOfTwo(status: map<Player, nat>, b: seq<Player>)
    requires |b| == 2
    ensures AnyGone(status, b) <==> Gone(status, b[0]) || Gone(status, b[1])
    ensures Dead(status, b) == If(Gone(status, b[0]), b[0]) + If(Gone(status, b[1]), b[1])
    ensures Live(status, b) == If(!Gone(status, b[0]), b[0]) + If(!Gone(status, b[1]), b[1])
  {
    BlockHead(status, b);
    hide Gone, Dead, Live, AnyGone;
    BlockOfOne(status, b[1..]);
    assert b[1..][0] == b[1];
  }

  lemma BlockOfOne(status: map<Player, nat>, b: seq<Player>)
    requires |b| == 1
    ensures AnyGone(status, b) <==> Gone(status, b[0])
    ensures Dead(status, b) == If(Gone(status, b[0]), b[0])
    ensures Live(status, b) == If(!Gone(status, b[0]), b[0])
  {
    hide Gone;
    assert b[1..] == [];
  }

  lemma SameAi(l: Lists, m: Lists)
    requires l.pool == m.pool && l.nextId == m.nextId
    ensures NextAi(l) == NextAi(m)
  {
  }

  /** A player returned by the waiting list, or a logged-out one deleted. */
  lemma SkimmedTo(l: Lists, r: Maybe, one: seq<Player>, deleted: seq<Player>)
    requires r.Somebody? <==> l.one != [] && !Gone(l.status, l.one[0])
    requires one == if l.one == [] then [] else l.one[1..]
    requires deleted == l.deleted + if l.one != [] then If(Gone(l.status, l.one[0]), l.one[0]) else []
    ensures r.Nobody? ==> T.Skimmed(l) == l.(one := one, deleted := deleted) && NextAi(T.Skimmed(l)) == NextAi(l)
    ensures r.Somebody? ==> deleted == l.deleted
  {
    if l.one != [] {
      hide Gone;
      BlockOfOne(l.status, l.one[..1]);
      assert l.lost + [] == l.lost;
    }
  }

  lemma HomeCommutes(l: Lists, i: nat, p: Player)
    requires i < |l.three|
    ensures H.Home(T.ClearThree(l, i), p) == T.ClearThree(H.Home(l, p).(three := l.three), i)
    ensures H.Home(l, p).three == l.three
  {
  }
}
