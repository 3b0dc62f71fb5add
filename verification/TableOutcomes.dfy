/**
 * What the passes over the tables of three and of two leave behind, in closed form: by counting, for
 * each table, how many of its players have logged out.
 */
module TableOutcomes {
  import opened Ledger
  import opened Seating
  import opened Passes
  import opened TablePasses
  import opened ThirdPass

  // ---------------------------------------------------------------- one table of three

  function Seats(t: Triple): seq<Player> {
    [t.pair.first, t.pair.second, t.third]
  }

  function LiveAt(status: map<Player, nat>, t: Triple): seq<Player> {
    Live(status, Seats(t))
  }

  function Ais(kind: map<Player, Kind>, s: seq<Player>): seq<Player> {
    if s == [] then [] else (if KindOf(kind, s[0]) == Ai then [s[0]] else []) + Ais(kind, s[1..])
  }

  function Others(kind: map<Player, Kind>, s: seq<Player>): seq<Player> {
    if s == [] then [] else (if KindOf(kind, s[0]) == Ai then [] else [s[0]]) + Others(kind, s[1..])
  }

  /** The one player left of a table with two logged-out ones. */
  function SingleOf(status: map<Player, nat>, t: Triple): seq<Player> {
    var live := LiveAt(status, t);
    if |live| == 1 then live else []
  }

  /** The two players left of a table with one logged-out one. */
  function PairOf(status: map<Player, nat>, t: Triple): seq<Pair> {
    var live := LiveAt(status, t);
    if |live| == 2 then [Pair(live[0], live[1])] else []
  }

  /** The logged-out players are deleted; if there are three, all but AI players. */
  function DeletedOf(status: map<Player, nat>, kind: map<Player, Kind>, t: Triple): seq<Player> {
    var live := LiveAt(status, t);
    if |live| == 3 then [] else if live == [] then Others(kind, Seats(t)) else Dead(status, Seats(t))
  }

  /** AI players return to the pool if all three have logged out or the round is over. */
  function PooledOf(status: map<Player, nat>, kind: map<Player, Kind>, t: Triple): seq<Player> {
    if LiveAt(status, t) == [] || AllOver(status, t) then Ais(kind, Seats(t)) else []
  }

  /** The table stays if nobody has logged out and the round is not over. */
  function StayOf(status: map<Player, nat>, t: Triple): seq<Triple> {
    if |LiveAt(status, t)| == 3 && !AllOver(status, t) then [t] else []
  }

  /** Dealing marks the players; at the end of a round AI players and stand-ins are logged out. */
  function StatusThen(status: map<Player, nat>, kind: map<Player, Kind>, ready: set<Player>, t: Triple, p: Player): nat {
    if CanDeal(status, t, ready) then DEALING_CARD
    else if AllOver(status, t) && KindOf(kind, p) != User then LOG_OUTED
    else StatusOf(status, p)
  }

  // ---------------------------------------------------------------- all tables of three, in order

  function SinglesLeft(status: map<Player, nat>, s: seq<Triple>): seq<Player> {
    if s == [] then [] else SingleOf(status, s[0]) + SinglesLeft(status, s[1..])
  }

  function PairsLeft(status: map<Player, nat>, s: seq<Triple>): seq<Pair> {
    if s == [] then [] else PairOf(status, s[0]) + PairsLeft(status, s[1..])
  }

  function DeletedFrom(status: map<Player, nat>, kind: map<Player, Kind>, s: seq<Triple>): seq<Player> {
    if s == [] then [] else DeletedOf(status, kind, s[0]) + DeletedFrom(status, kind, s[1..])
  }

  function PooledFrom(status: map<Player, nat>, kind: map<Player, Kind>, s: seq<Triple>): seq<Player> {
    if s == [] then [] else PooledOf(status, kind, s[0]) + PooledFrom(status, kind, s[1..])
  }

  function Staying(status: map<Player, nat>, s: seq<Triple>): seq<Triple> {
    if s == [] then [] else StayOf(status, s[0]) + Staying(status, s[1..])
  }

  function StatusAfter(status: map<Player, nat>, kind: map<Player, Kind>, ready: set<Player>, s: seq<Triple>, p: Player): nat {
    if s == [] then StatusOf(status, p)
    else if p in Seats(s[0]) then StatusThen(status, kind, ready, s[0], p)
    else StatusAfter(status, kind, ready, s[1..], p)
  }

  /** What a pass over the tables from the i-th on makes of the lists. */
  ghost predicate ThirdPassFrom(l: Lists, r: Lists, i: nat, ready: set<Player>) {
    && i <= |l.three|
    && var s := l.three[i..];
       && r.one == l.one + SinglesLeft(l.status, s)
       && r.two == l.two + PairsLeft(l.status, s)
       && r.three == l.three[..i] + Staying(l.status, s)
       && r.pool == l.pool + PooledFrom(l.status, l.kind, s)
       && r.deleted == l.deleted + DeletedFrom(l.status, l.kind, s)
       && r.lost == l.lost && r.kind == l.kind && r.nextId == l.nextId
       && forall p: Player :: StatusOf(r.status, p) == StatusAfter(l.status, l.kind, ready, s, p)
  }

  // ---------------------------------------------------------------- only the statuses of those seated matter

  ghost predicate Agree(status: map<Player, nat>, other: map<Player, nat>, s: seq<Triple>) {
    forall t, p | t in s && p in Seats(t) :: StatusOf(status, p) == StatusOf(other, p)
  }

  lemma AgreeAt(status: map<Player, nat>, other: map<Player, nat>, kind: map<Player, Kind>, t: Triple)
    requires Agree(status, other, [t])
    ensures SingleOf(status, t) == SingleOf(other, t) && PairOf(status, t) == PairOf(other, t)
    ensures DeletedOf(status, kind, t) == DeletedOf(other, kind, t) && PooledOf(status, kind, t) == PooledOf(other, kind, t)
    ensures StayOf(status, t) == StayOf(other, t) && AllOver(status, t) == AllOver(other, t)
    ensures forall ready :: CanDeal(status, t, ready) == CanDeal(other, t, ready)
  {
    assert forall p | p in Seats(t) :: StatusOf(status, p) == StatusOf(other, p);
    assert t.pair.first in Seats(t) && t.pair.second in Seats(t) && t.third in Seats(t);
    hide StatusOf;
    LiveAgrees(status, other, Seats(t));
    hide Live, Dead, Ais, Others;
  }

  lemma {:induction false} LiveAgrees(status: map<Player, nat>, other: map<Player, nat>, s: seq<Player>)
    requires forall p | p in s :: StatusOf(status, p) == StatusOf(other, p)
    ensures Live(status, s) == Live(other, s) && Dead(status, s) == Dead(other, s)
  {
    hide StatusOf;
    if s != [] {
      LiveAgrees(status, other, s[1..]);
    }
  }

  lemma {:induction false} AllAgree(status: map<Player, nat>, other: map<Player, nat>, kind: map<Player, Kind>, s: seq<Triple>)
    requires Agree(status, other, s)
    ensures SinglesLeft(status, s) == SinglesLeft(other, s) && PairsLeft(status, s) == PairsLeft(other, s)
    ensures DeletedFrom(status, kind, s) == DeletedFrom(other, kind, s) && PooledFrom(status, kind, s) == PooledFrom(other, kind, s)
    ensures Staying(status, s) == Staying(other, s)
  {
    hide SingleOf, PairOf, DeletedOf, PooledOf, StayOf, StatusOf, Seats, AllOver, CanDeal;
    if s != [] {
      AgreeAt(status, other, kind, s[0]);
      AllAgree(status, other, kind, s[1..]);
    }
  }

  lemma {:induction false} StatusAgrees(status: map<Player, nat>, other: map<Player, nat>, kind: map<Player, Kind>, ready: set<Player>,
      s: seq<Triple>, p: Player)
    requires Agree(status, other, s) && StatusOf(status, p) == StatusOf(other, p)
    ensures StatusAfter(status, kind, ready, s, p) == StatusAfter(other, kind, ready, s, p)
  {
    hide SingleOf, PairOf, DeletedOf, PooledOf, StayOf, StatusOf, Seats, AllOver, CanDeal;
    if s != [] {
      AgreeAt(status, other, kind, s[0]);
      StatusAgrees(status, other, kind, ready, s[1..], p);
    }
  }

  lemma {:induction false} NotSeated(status: map<Player, nat>, kind: map<Player, Kind>, ready: set<Player>, s: seq<Triple>, p: Player)
    requires forall t | t in s :: p !in Seats(t)
    ensures StatusAfter(status, kind, ready, s, p) == StatusOf(status, p)
  {
    hide Seats, StatusThen, StatusOf;
    if s != [] {
      NotSeated(status, kind, ready, s[1..], p);
    }
  }

  // ---------------------------------------------------------------- one step of the third pass

  /** What one table leaves behind. */
  ghost predicate OneTable(l: Lists, m: Lists, t: Triple, ready: set<Player>) {
    && m.one == l.one + SingleOf(l.status, t)
    && m.two == l.two + PairOf(l.status, t)
    && m.pool == l.pool + PooledOf(l.status, l.kind, t)
    && m.deleted == l.deleted + DeletedOf(l.status, l.kind, t)
    && m.lost == l.lost && m.kind == l.kind && m.nextId == l.nextId
    && forall p: Player :: StatusOf(m.status, p) == if p in Seats(t) then StatusThen(l.status, l.kind, ready, t, p) else StatusOf(l.status, p)
  }

  lemma LiveOfThree(status: map<Player, nat>, p: Player, q: Player, r: Player)
    ensures Live(status, [p, q, r]) == If(!Gone(status, p), p) + If(!Gone(status, q), q) + If(!Gone(status, r), r)
    ensures Dead(status, [p, q, r]) == If(Gone(status, p), p) + If(Gone(status, q), q) + If(Gone(status, r), r)
  {
    LiveHead(status, [p, q, r]);
    LiveHead(status, [q, r]);
    LiveHead(status, [r]);
    hide Gone, Live, Dead, If;
    assert [p, q, r][1..] == [q, r] && [q, r][1..] == [r] && [r][1..] == [];
    InARow(If(!Gone(status, p), p), If(!Gone(status, q), q), If(!Gone(status, r), r));
    InARow(If(Gone(status, p), p), If(Gone(status, q), q), If(Gone(status, r), r));
  }

  lemma InARow(a: seq<Player>, b: seq<Player>, c: seq<Player>)
    ensures a + (b + (c + [])) == a + b + c
  {
  }

  lemma LiveHead(status: map<Player, nat>, s: seq<Player>)
    requires s != []
    ensures Live(status, s) == If(!Gone(status, s[0]), s[0]) + Live(status, s[1..])
    ensures Dead(status, s) == If(Gone(status, s[0]), s[0]) + Dead(status, s[1..])
    ensures Live(status, []) == [] && Dead(status, []) == []
  {
    hide Gone;
  }

  function If(here: bool, p: Player): seq<Player> {
    if here then [p] else []
  }

  lemma AisOfThree(kind: map<Player, Kind>, p: Player, q: Player, r: Player)
    ensures Ais(kind, [p, q, r]) ==
            If(KindOf(kind, p) == Ai, p) + If(KindOf(kind, q) == Ai, q) + If(KindOf(kind, r) == Ai, r)
    ensures Others(kind, [p, q, r]) ==
            If(KindOf(kind, p) != Ai, p) + If(KindOf(kind, q) != Ai, q) + If(KindOf(kind, r) != Ai, r)
  {
    AisHead(kind, [p, q, r]);
    AisHead(kind, [q, r]);
    AisHead(kind, [r]);
    hide KindOf, Ais, Others, If;
    assert [p, q, r][1..] == [q, r] && [q, r][1..] == [r] && [r][1..] == [];
    InARow(If(KindOf(kind, p) == Ai, p), If(KindOf(kind, q) == Ai, q), If(KindOf(kind, r) == Ai, r));
    InARow(If(KindOf(kind, p) != Ai, p), If(KindOf(kind, q) != Ai, q), If(KindOf(kind, r) != Ai, r));
  }

  lemma AisHead(kind: map<Player, Kind>, s: seq<Player>)
    requires s != []
    ensures Ais(kind, s) == If(KindOf(kind, s[0]) == Ai, s[0]) + Ais(kind, s[1..])
    ensures Others(kind, s) == If(KindOf(kind, s[0]) != Ai, s[0]) + Others(kind, s[1..])
    ensures Ais(kind, []) == [] && Others(kind, []) == []
  {
    hide KindOf;
  }

  lemma ReleasedIs(m: Lists, p: Player)
    ensures Release(m, p) == m.(pool := m.pool + If(KindOf(m.kind, p) == Ai, p), deleted := m.deleted + If(KindOf(m.kind, p) != Ai, p))
  {
    assert m.pool + [] == m.pool && m.deleted + [] == m.deleted;
  }

  lemma Appended(s: seq<Player>, a: seq<Player>, b: seq<Player>, c: seq<Player>)
    ensures ((s + a) + b) + c == s + (a + b + c)
  {
  }

  lemma AllReleased(m: Lists, p: Player, q: Player, r: Player)
    ensures Release(Release(Release(m, p), q), r) ==
            m.(pool := m.pool + Ais(m.kind, [p, q, r]), deleted := m.deleted + Others(m.kind, [p, q, r]))
  {
    hide Release, KindOf, Ais, Others;
    ReleasedIs(m, p);
    ReleasedIs(Release(m, p), q);
    ReleasedIs(Release(Release(m, p), q), r);
    AisOfThree(m.kind, p, q, r);
    Appended(m.pool, If(KindOf(m.kind, p) == Ai, p), If(KindOf(m.kind, q) == Ai, q), If(KindOf(m.kind, r) == Ai, r));
    Appended(m.deleted, If(KindOf(m.kind, p) != Ai, p), If(KindOf(m.kind, q) != Ai, q), If(KindOf(m.kind, r) != Ai, r));
  }

  /** A table with one or two logged-out players. */
  lemma RemainingLeaves(m: Lists, t: Triple)
    requires 1 <= |LiveAt(m.status, t)| <= 2
    ensures Remaining(m, t.pair.first, t.pair.second, t.third) ==
            m.(one := m.one + SingleOf(m.status, t), two := m.two + PairOf(m.status, t), deleted := m.deleted + Dead(m.status, Seats(t)))
  {
    hide Gone, Live, Dead;
    LiveOfThree(m.status, t.pair.first, t.pair.second, t.third);
    assert m.one + [] == m.one && m.two + [] == m.two;
  }

  lemma CountLive(status: map<Player, nat>, t: Triple)
    ensures |LiveAt(status, t)| == 3 <==> !SomeoneGone(status, t)
    ensures |LiveAt(status, t)| == 0 <==> Gone(status, t.pair.first) && Gone(status, t.pair.second) && Gone(status, t.third)
    ensures |LiveAt(status, t)| <= 3
  {
    hide Gone, Live;
    LiveOfThree(status, t.pair.first, t.pair.second, t.third);
  }

  lemma NotOver(status: map<Player, nat>, t: Triple, ready: set<Player>)
    ensures SomeoneGone(status, t) ==> !AllOver(status, t) && !CanDeal(status, t, ready)
    ensures CanDeal(status, t, ready) ==> !AllOver(status, t)
  {
  }

  lemma LogoutThreeLeaves(l: Lists, i: nat, ready: set<Player>)
    requires i < |l.three| && SomeoneGone(l.status, l.three[i])
    ensures var m := LogoutThree(l, i); OneTable(l, m, l.three[i], ready) && m.three == Without(l.three, i)
    ensures StayOf(l.status, l.three[i]) == []
  {
    var t, c := l.three[i], ClearThree(l, i);
    assert c == l.(three := Without(l.three, i));
    CountLive(l.status, t);
    NotOver(l.status, t, ready);
    hide Gone, LiveAt, Live, Dead, Release, Remaining, SomeoneGone, AllOver, CanDeal, Ais, Others, Without;
    assert l.one + [] == l.one && l.two + [] == l.two && l.pool + [] == l.pool && l.deleted + [] == l.deleted;
    if LiveAt(l.status, t) == [] {
      AllReleased(c, t.pair.first, t.pair.second, t.third);
    } else {
      RemainingLeaves(c, t);
    }
  }

  lemma DealtLeaves(l: Lists, t: Triple, ready: set<Player>)
    requires CanDeal(l.status, t, ready) && !SomeoneGone(l.status, t)
    ensures OneTable(l, Dealt(l, t), t, ready) && StayOf(l.status, t) == [t]
  {
    CountLive(l.status, t);
    NotOver(l.status, t, ready);
    hide Gone, LiveAt, AllOver, CanDeal;
    assert l.one + [] == l.one && l.two + [] == l.two && l.pool + [] == l.pool && l.deleted + [] == l.deleted;
  }

  lemma NothingLeaves(l: Lists, t: Triple, ready: set<Player>)
    requires !CanDeal(l.status, t, ready) && !SomeoneGone(l.status, t) && !AllOver(l.status, t)
    ensures OneTable(l, l, t, ready) && StayOf(l.status, t) == [t]
  {
    CountLive(l.status, t);
    hide Gone, LiveAt, AllOver, CanDeal;
    assert l.one + [] == l.one && l.two + [] == l.two && l.pool + [] == l.pool && l.deleted + [] == l.deleted;
  }

  lemma HomeLeaves(l: Lists, p: Player)
    ensures var r := Home(l, p);
            && r == l.(pool := l.pool + If(KindOf(l.kind, p) == Ai, p), left := r.left, status := r.status)
            && forall q :: StatusOf(r.status, q) == if q == p && KindOf(l.kind, p) != User then LOG_OUTED else StatusOf(l.status, q)
  {
    assert l.pool + [] == l.pool;
  }

  lemma HomeTwice(l: Lists, p: Player, q: Player, r: Player)
    ensures var m := Home(Home(Home(l, p), q), r);
            && m == l.(pool := l.pool + Ais(l.kind, [p, q, r]), left := m.left, status := m.status)
            && forall x :: StatusOf(m.status, x) == if x in [p, q, r] && KindOf(l.kind, x) != User then LOG_OUTED else StatusOf(l.status, x)
  {
    hide Home, KindOf, StatusOf, Ais;
    HomeLeaves(l, p);
    HomeLeaves(Home(l, p), q);
    HomeLeaves(Home(Home(l, p), q), r);
    AisOfThree(l.kind, p, q, r);
    Appended(l.pool, If(KindOf(l.kind, p) == Ai, p), If(KindOf(l.kind, q) == Ai, q), If(KindOf(l.kind, r) == Ai, r));
  }

  lemma RoundOverLeaves(l: Lists, i: nat, ready: set<Player>)
    requires i < |l.three| && AllOver(l.status, l.three[i])
    ensures var m := RoundOver(l, i); OneTable(l, m, l.three[i], ready) && m.three == Without(l.three, i)
    ensures StayOf(l.status, l.three[i]) == []
  {
    var t, c := l.three[i], ClearThree(l, i);
    assert c == l.(three := Without(l.three, i));
    CountLive(l.status, t);
    NotOver(l.status, t, ready);
    hide Gone, LiveAt, Live, Dead, Home, SomeoneGone, AllOver, CanDeal, Ais, Others, Without, StatusOf, KindOf;
    HomeTwice(c, t.pair.first, t.pair.second, t.third);
    assert l.one + [] == l.one && l.two + [] == l.two && l.deleted + [] == l.deleted;
  }

  // ---------------------------------------------------------------- the whole third pass

  ghost predicate OthersSeated(t: Triple, s: seq<Triple>) {
    forall u, p | u in s && p in Seats(u) :: p !in Seats(t)
  }

  lemma OthersSitApart(l: Lists, i: nat)
    requires Proper(Account(l)) && i < |l.three|
    ensures OthersSeated(l.three[i], l.three[i + 1..])
  {
    hide Proper, Account, SeatsThree, Without;
    var s := l.three[i + 1..];
    TailSeats(l.three, i);
    forall u, p | u in s && p in Seats(u) ensures p !in Seats(l.three[i]) {
      AtTable(s, u, p);
      Apart(l, i, p);
    }
  }

  lemma AtTable(s: seq<Triple>, u: Triple, p: Player)
    requires u in s && p in Seats(u)
    ensures p in SeatsThree(s)
  {
    var k :| 0 <= k < |s| && s[k] == u;
    SeatsThreeWithout(s, k);
    assert p in TripleSeats(u);
  }

  lemma SameRest(l: Lists, m: Lists, t: Triple, ready: set<Player>, s: seq<Triple>)
    requires OneTable(l, m, t, ready) && OthersSeated(t, s)
    ensures Agree(l.status, m.status, s)
  {
    hide SingleOf, PairOf, PooledOf, DeletedOf, StatusThen, StatusOf, Seats;
  }

  lemma StatusStep(l: Lists, m: Lists, t: Triple, ready: set<Player>, s: seq<Triple>, p: Player)
    requires OneTable(l, m, t, ready) && OthersSeated(t, s)
    ensures StatusAfter(m.status, l.kind, ready, s, p) == StatusAfter(l.status, l.kind, ready, [t] + s, p)
  {
    hide SingleOf, PairOf, PooledOf, DeletedOf, StatusThen, StatusOf, Seats;
    assert ([t] + s)[0] == t && ([t] + s)[1..] == s;
    if p in Seats(t) {
      NotSeated(m.status, l.kind, ready, s, p);
    } else {
      SameRest(l, m, t, ready, s);
      StatusAgrees(l.status, m.status, l.kind, ready, s, p);
    }
  }

  lemma Joined<T>(a: seq<T>, b: seq<T>, c: seq<T>)
    ensures (a + b) + c == a + (b + c)
  {
  }

  lemma HeadOf(status: map<Player, nat>, kind: map<Player, Kind>, t: Triple, s: seq<Triple>)
    ensures SinglesLeft(status, [t] + s) == SingleOf(status, t) + SinglesLeft(status, s)
    ensures PairsLeft(status, [t] + s) == PairOf(status, t) + PairsLeft(status, s)
    ensures PooledFrom(status, kind, [t] + s) == PooledOf(status, kind, t) + PooledFrom(status, kind, s)
    ensures DeletedFrom(status, kind, [t] + s) == DeletedOf(status, kind, t) + DeletedFrom(status, kind, s)
    ensures Staying(status, [t] + s) == StayOf(status, t) + Staying(status, s)
  {
    hide SingleOf, PairOf, PooledOf, DeletedOf, StayOf;
    assert ([t] + s)[0] == t && ([t] + s)[1..] == s;
  }

  /** One table, and then the others. */
  lemma OneThenRest(l: Lists, m: Lists, r: Lists, i: nat, j: nat, ready: set<Player>)
    requires i < |l.three| && j <= |m.three| && m.three[j..] == l.three[i + 1..]
    requires m.three[..j] == l.three[..i] + StayOf(l.status, l.three[i])
    requires OneTable(l, m, l.three[i], ready) && OthersSeated(l.three[i], l.three[i + 1..])
    requires ThirdPassFrom(m, r, j, ready)
    ensures ThirdPassFrom(l, r, i, ready)
  {
    hide SingleOf, PairOf, PooledOf, DeletedOf, StayOf, StatusThen, StatusOf, Seats, SinglesLeft, PairsLeft, PooledFrom,
      DeletedFrom, Staying, StatusAfter, Agree;
    var t, s := l.three[i], l.three[i + 1..];
    assert l.three[i..] == [t] + s;
    SameRest(l, m, t, ready, s);
    AllAgree(l.status, m.status, l.kind, s);
    HeadOf(l.status, l.kind, t, s);
    Joined(l.one, SingleOf(l.status, t), SinglesLeft(l.status, s));
    Joined(l.two, PairOf(l.status, t), PairsLeft(l.status, s));
    Joined(l.pool, PooledOf(l.status, l.kind, t), PooledFrom(l.status, l.kind, s));
    Joined(l.deleted, DeletedOf(l.status, l.kind, t), DeletedFrom(l.status, l.kind, s));
    Joined(l.three[..i], StayOf(l.status, t), Staying(l.status, s));
    forall p: Player ensures StatusOf(r.status, p) == StatusAfter(l.status, l.kind, ready, l.three[i..], p) {
      StatusStep(l, m, t, ready, s, p);
    }
  }

  lemma WithoutParts(s: seq<Triple>, i: nat)
    requires i < |s|
    ensures |Without(s, i)| >= i && Without(s, i)[..i] == s[..i] + [] && Without(s, i)[i..] == s[i + 1..]
  {
  }

  lemma NoTablesLeft(l: Lists, ready: set<Player>)
    ensures ThirdPassFrom(l, l, |l.three|, ready)
  {
    var s := l.three[|l.three|..];
    assert s == [];
    assert l.three[..|l.three|] + [] == l.three;
  }

  lemma {:induction false} PassThreeLeaves(l: Lists, i: nat, ready: set<Player>)
    requires Proper(Account(l)) && i <= |l.three|
    ensures ThirdPassFrom(l, PassThree(l, i, ready), i, ready)
    decreases |l.three| - i
  {
    hide Kept, Proper, Account, LogoutThree, Dealt, RoundOver, Without, SomeoneGone, CanDeal, AllOver, OneTable, StayOf,
      ThirdPassFrom, OthersSeated;
    var r := PassThree(l, i, ready);
    if i == |l.three| {
      NoTablesLeft(l, ready);
    } else {
      var t := l.three[i];
      OthersSitApart(l, i);
      WithoutParts(l.three, i);
      StepThreeKeeps(l, i);
      NotOver(l.status, t, ready);
      if SomeoneGone(l.status, t) {
        var m := LogoutThree(l, i);
        LogoutThreeKept(l, i);
        ProperKept(Account(l), Account(m));
        LogoutThreeLeaves(l, i, ready);
        PassThreeLeaves(m, i, ready);
        OneThenRest(l, m, r, i, i, ready);
      } else if CanDeal(l.status, t, ready) {
        var m := Dealt(l, t);
        DealtKept(l, t);
        ProperKept(Account(l), Account(m));
        DealtLeaves(l, t, ready);
        DealtOnlyAt(l, t);
        PassThreeLeaves(m, i + 1, ready);
        assert m.three[..i + 1] == l.three[..i] + [t];
        OneThenRest(l, m, r, i, i + 1, ready);
      } else if AllOver(l.status, t) {
        var m := RoundOver(l, i);
        RoundOverKept(l, i);
        ProperKept(Account(l), Account(m));
        RoundOverLeaves(l, i, ready);
        PassThreeLeaves(m, i, ready);
        OneThenRest(l, m, r, i, i, ready);
      } else {
        NothingLeaves(l, t, ready);
        PassThreeLeaves(l, i + 1, ready);
        assert l.three[..i + 1] == l.three[..i] + [t];
        OneThenRest(l, l, r, i, i + 1, ready);
      }
    }
  }

  lemma {:induction false} StatusAfterMeans(l: Lists, i: nat, ready: set<Player>, p: Player)
    requires Proper(Account(l)) && i <= |l.three|
    ensures StatusAfter(l.status, l.kind, ready, l.three[i..], p) ==
            if exists t | t in l.three[i..] :: p in Seats(t) && CanDeal(l.status, t, ready) then DEALING_CARD
            else if KindOf(l.kind, p) != User && exists t | t in l.three[i..] :: p in Seats(t) && AllOver(l.status, t) then LOG_OUTED
            else StatusOf(l.status, p)
    decreases |l.three| - i
  {
    hide Proper, Account, Seats, CanDeal, AllOver, StatusOf, KindOf;
    if i < |l.three| {
      var t, s := l.three[i], l.three[i + 1..];
      assert l.three[i..][0] == t && l.three[i..][1..] == s;
      assert forall u :: u in l.three[i..] <==> u == t || u in s;
      StatusAfterMeans(l, i + 1, ready, p);
      OthersSitApart(l, i);
    }
  }

  /**
   * The third pass in closed form. Tables of two grow by the pairs left of tables with one logged-out
   * player, the waiting list by the players left of tables with two, both in order of the tables; the
   * logged-out players are deleted or returned to the pool; exactly the players of tables ready to
   * deal are marked so; AI players and stand-ins of finished rounds are logged out.
   */
  lemma {:induction false} ThirdPassResult(l: Lists, ready: set<Player>)
    requires Proper(Account(l))
    ensures var r := PassThree(l, 0, ready);
            && r.one == l.one + SinglesLeft(l.status, l.three)
            && r.two == l.two + PairsLeft(l.status, l.three)
            && r.three == Staying(l.status, l.three)
            && r.pool == l.pool + PooledFrom(l.status, l.kind, l.three)
            && r.deleted == l.deleted + DeletedFrom(l.status, l.kind, l.three)
            && r.lost == l.lost && r.kind == l.kind && r.nextId == l.nextId
            && forall p: Player :: StatusOf(r.status, p) ==
                 if exists t | t in l.three :: p in Seats(t) && CanDeal(l.status, t, ready) then DEALING_CARD
                 else if KindOf(l.kind, p) != User && exists t | t in l.three :: p in Seats(t) && AllOver(l.status, t) then LOG_OUTED
                 else StatusOf(l.status, p)
  {
    hide Proper, Account, PassThree, Seats, CanDeal, AllOver, StatusOf, KindOf, StatusAfter;
    PassThreeLeaves(l, 0, ready);
    assert l.three[0..] == l.three && l.three[..0] == [];
    var s := Staying(l.status, l.three);
    assert [] + s == s;
    forall p: Player ensures StatusOf(PassThree(l, 0, ready).status, p) ==
                 if exists t | t in l.three :: p in Seats(t) && CanDeal(l.status, t, ready) then DEALING_CARD
                 else if KindOf(l.kind, p) != User && exists t | t in l.three :: p in Seats(t) && AllOver(l.status, t) then LOG_OUTED
                 else StatusOf(l.status, p)
    {
      StatusAfterMeans(l, 0, ready, p);
    }
  }
}
