/**
 * What the pass over the tables of two leaves behind: what each further table adds, and, for the whole
 * pass, who waits, who is deleted and who is in the pool, by counting who has logged out.
 */
module PairOutcomes {
  import opened Ledger
  import opened Seating
  import opened Passes
  import opened TablePasses
  import O = TableOutcomes

  function Both(t: Pair): seq<Player> {
    [t.first, t.second]
  }

  // ---------------------------------------------------------------- one table more

  function More(l: Lists, t: Pair): Lists {
    l.(two := l.two + [t])
  }

  /** The waiting list without its front, and the front. */
  function Behind(s: seq<Player>): seq<Player> {
    if s == [] then [] else s[1..]
  }

  function Front(s: seq<Player>): seq<Player> {
    if s == [] then [] else s[..1]
  }

  lemma LiveOfTwo(status: map<Player, nat>, p: Player, q: Player)
    ensures Live(status, [p, q]) == O.If(!Gone(status, p), p) + O.If(!Gone(status, q), q)
    ensures Dead(status, [p, q]) == O.If(Gone(status, p), p) + O.If(Gone(status, q), q)
  {
    hide Gone;
    assert [p, q][1..] == [q] && [q][1..] == [];
    assert Live(status, [q]) == O.If(!Gone(status, q), q) && Dead(status, [q]) == O.If(Gone(status, q), q);
  }

  lemma AisOfTwo(kind: map<Player, Kind>, p: Player, q: Player)
    ensures O.Ais(kind, [p, q]) == O.If(KindOf(kind, p) == Ai, p) + O.If(KindOf(kind, q) == Ai, q)
    ensures O.Others(kind, [p, q]) == O.If(KindOf(kind, p) != Ai, p) + O.If(KindOf(kind, q) != Ai, q)
    ensures O.Others(kind, [p]) == O.If(KindOf(kind, p) != Ai, p) && O.Others(kind, []) == []
    ensures O.Others(kind, [q]) == O.If(KindOf(kind, q) != Ai, q)
  {
    hide KindOf;
    assert [p, q][1..] == [q] && [q][1..] == [] && [p][1..] == [];
    assert O.Ais(kind, []) == [] && O.Others(kind, []) == [];
    assert O.Ais(kind, [q]) == O.If(KindOf(kind, q) == Ai, q) + [] && O.Others(kind, [q]) == O.If(KindOf(kind, q) != Ai, q) + [];
    assert O.Others(kind, [p]) == O.If(KindOf(kind, p) != Ai, p) + [];
  }

  lemma OutIs(m: Lists, p: Player)
    ensures OutTwo(m, p) == m.(pool := m.pool + O.If(KindOf(m.kind, p) == Ai, p), one := m.one + O.If(KindOf(m.kind, p) != Ai, p))
  {
    assert m.pool + [] == m.pool && m.one + [] == m.one;
  }

  lemma Joined(a: seq<Player>, b: seq<Player>, c: seq<Player>)
    ensures (a + b) + c == a + (b + c)
    ensures a + [] == a && [] + a == a
  {
  }

  /** A broken table by counting: its live players, but for AI players, wait; its others are deleted or pooled. */
  lemma LogoutTwoLeaves(l: Lists, i: nat)
    requires i < |l.two| && (Gone(l.status, l.two[i].first) || Gone(l.status, l.two[i].second))
    ensures var s := Both(l.two[i]);
            LogoutTwo(l, i) ==
            l.(two := Without(l.two, i), one := l.one + O.Others(l.kind, Live(l.status, s)),
               deleted := l.deleted + O.Others(l.kind, Dead(l.status, s)), pool := l.pool + O.Ais(l.kind, s))
  {
    hide Gone, Release, OutTwo, KindOf, Live, Dead, O.Ais, O.Others;
    var t, m := l.two[i], ClearTwo(l, i);
    var p, q := t.first, t.second;
    LiveOfTwo(l.status, p, q);
    AisOfTwo(l.kind, p, q);
    Joined(l.pool, O.If(KindOf(l.kind, p) == Ai, p), O.If(KindOf(l.kind, q) == Ai, q));
    Joined(l.deleted, O.If(KindOf(l.kind, p) != Ai, p), O.If(KindOf(l.kind, q) != Ai, q));
    Joined(l.one, [], []);
    Joined(l.deleted, [], []);
    assert [p] + [] == [p] && [] + [q] == [q] && [p] + [q] == [p, q];
    if !Gone(l.status, q) {
      O.ReleasedIs(m, p);
      OutIs(Release(m, p), q);
    } else if !Gone(l.status, p) {
      OutIs(m, p);
      O.ReleasedIs(OutTwo(m, p), q);
    } else {
      O.ReleasedIs(m, p);
      O.ReleasedIs(Release(m, p), q);
    }
  }

  lemma SkimmedLeaves(l: Lists)
    ensures l.one == [] || Gone(l.status, l.one[0]) ==>
              Skimmed(l) == l.(one := Behind(l.one), deleted := l.deleted + Front(l.one))
    ensures l.one != [] && !Gone(l.status, l.one[0]) ==> Skimmed(l) == l
  {
    SkimmedIs(l);
    hide Gone;
    if l.one != [] {
      DropBlockIs(l, 1);
      assert l.one[..1] == [l.one[0]] && [l.one[0]][1..] == [];
    }
    assert l.deleted + [] == l.deleted;
  }

  lemma WithoutMore(two: seq<Pair>, t: Pair, i: nat)
    requires i < |two|
    ensures Without(two + [t], i) == Without(two, i) + [t] && (two + [t])[i] == two[i]
  {
  }

  lemma StepsWithMore(l: Lists, t: Pair, i: nat)
    requires i < |l.two| && i < |More(l, t).two|
    ensures LogoutTwo(More(l, t), i) == More(LogoutTwo(l, i), t)
    ensures Skimmed(More(l, t)) == More(Skimmed(l), t)
    ensures JoinAi(More(l, t), i) == More(JoinAi(l, i), t)
    ensures l.one != [] ==> JoinWaiter(More(l, t), i) == More(JoinWaiter(l, i), t)
  {
    hide Gone;
    WithoutMore(l.two, t, i);
    LogoutWithMore(l, t, i);
    hide LogoutTwo;
  }

  lemma LogoutWithMore(l: Lists, t: Pair, i: nat)
    requires i < |l.two| && i < |More(l, t).two|
    ensures LogoutTwo(More(l, t), i) == More(LogoutTwo(l, i), t)
  {
    WithoutMore(l.two, t, i);
    hide Gone, KindOf;
    var u, m := l.two[i], ClearTwo(l, i);
    assert ClearTwo(More(l, t), i) == More(m, t);
    forall n: Lists, p ensures Release(More(n, t), p) == More(Release(n, p), t) && OutTwo(More(n, t), p) == More(OutTwo(n, p), t) {
    }
    hide Release, OutTwo, ClearTwo;
  }

  /** The pass over the tables with one more is the pass over them, and then a pass over that one. */
  lemma {:induction false} LastTableLast(l: Lists, t: Pair, i: nat, expired: set<Player>)
    requires i <= |l.two|
    ensures var m := PassTwo(l, i, expired);
            PassTwo(More(l, t), i, expired) == PassTwo(More(m, t), |m.two|, expired)
    decreases |l.two| - i
  {
    hide Gone, LogoutTwo, JoinWaiter, JoinAi, Skimmed;
    if i < |l.two| {
      var u, s := l.two[i], Skimmed(l);
      StepTwoKeeps(l, i);
      StepsWithMore(l, t, i);
      StepsWithMore(s, t, i);
      assert More(l, t).two[i] == u;
      if Gone(l.status, u.first) || Gone(l.status, u.second) {
        LastTableLast(LogoutTwo(l, i), t, i, expired);
      } else if l.one != [] && !Gone(l.status, l.one[0]) {
        LastTableLast(JoinWaiter(l, i), t, i, expired);
      } else if u.first in expired || u.second in expired {
        LastTableLast(JoinAi(s, i), t, i, expired);
      } else {
        LastTableLast(s, t, i + 1, expired);
      }
    }
  }

  /** What the last table makes of the lists the others have left. */
  ghost predicate AddsTable(m: Lists, r: Lists, t: Pair, expired: set<Player>) {
    var live, gone := Live(m.status, Both(t)), Dead(m.status, Both(t));
    if |live| < 2 then
      r == m.(one := m.one + O.Others(m.kind, live), deleted := m.deleted + O.Others(m.kind, gone), pool := m.pool + O.Ais(m.kind, Both(t)))
    else if m.one != [] && !Gone(m.status, m.one[0]) then
      r == m.(one := m.one[1..], three := m.three + [Triple(t, m.one[0])])
    else if t.first in expired || t.second in expired then
      var ai := if m.pool == [] then m.nextId else m.pool[|m.pool| - 1];
      r == m.(one := Behind(m.one), deleted := m.deleted + Front(m.one), three := m.three + [Triple(t, ai)],
              pool := if m.pool == [] then [] else m.pool[..|m.pool| - 1],
              nextId := if m.pool == [] then m.nextId + 1 else m.nextId,
              status := m.status[ai := STARTING], kind := m.kind[ai := Ai])
    else
      r == m.(one := Behind(m.one), deleted := m.deleted + Front(m.one), two := m.two + [t])
  }

  lemma LastTableAdds(m: Lists, t: Pair, expired: set<Player>)
    ensures AddsTable(m, PassTwo(More(m, t), |m.two|, expired), t, expired)
  {
    var l, i := More(m, t), |m.two|;
    assert l.two[i] == t && Without(l.two, i) == m.two;
    LiveOfTwo(m.status, t.first, t.second);
    SkimmedLeaves(l);
    StepTwoKeeps(l, i);
    hide Gone, LogoutTwo, Skimmed, Live, Dead, O.Ais, O.Others;
    if Gone(l.status, t.first) || Gone(l.status, t.second) {
      LogoutTwoLeaves(l, i);
    }
  }

  /**
   * The second pass table by table. A table with a logged-out player is broken up: live players wait
   * again, AI players return to the pool, the others are deleted. A full table takes the front of the
   * waiting list if he is live; else the front is deleted, and the table gets an AI player if it has
   * waited too long, and stays otherwise.
   */
  lemma {:induction false} SecondPassTable(l: Lists, t: Pair, expired: set<Player>)
    ensures AddsTable(PassTwo(l, 0, expired), PassTwo(l.(two := l.two + [t]), 0, expired), t, expired)
    ensures l.two == [] ==> PassTwo(l, 0, expired) == l
  {
    hide AddsTable;
    LastTableLast(l, t, 0, expired);
    LastTableAdds(PassTwo(l, 0, expired), t, expired);
  }

  // ---------------------------------------------------------------- the whole pass

  predicate Broken(status: map<Player, nat>, t: Pair) {
    Gone(status, t.first) || Gone(status, t.second)
  }

  /** The players, other than AI players, left alone at a broken table. */
  function AgainAt(status: map<Player, nat>, kind: map<Player, Kind>, t: Pair): seq<Player> {
    if Broken(status, t) then O.Others(kind, Live(status, Both(t))) else []
  }

  /** The logged-out ones of a broken table, but for AI players. */
  function GoneAt(status: map<Player, nat>, kind: map<Player, Kind>, t: Pair): seq<Player> {
    if Broken(status, t) then O.Others(kind, Dead(status, Both(t))) else []
  }

  /** The AI players of a broken table. */
  function BackAt(status: map<Player, nat>, kind: map<Player, Kind>, t: Pair): seq<Player> {
    if Broken(status, t) then O.Ais(kind, Both(t)) else []
  }

  function Again(status: map<Player, nat>, kind: map<Player, Kind>, s: seq<Pair>): seq<Player> {
    if s == [] then [] else AgainAt(status, kind, s[0]) + Again(status, kind, s[1..])
  }

  function GoneFrom(status: map<Player, nat>, kind: map<Player, Kind>, s: seq<Pair>): seq<Player> {
    if s == [] then [] else GoneAt(status, kind, s[0]) + GoneFrom(status, kind, s[1..])
  }

  function BackFrom(status: map<Player, nat>, kind: map<Player, Kind>, s: seq<Pair>): seq<Player> {
    if s == [] then [] else BackAt(status, kind, s[0]) + BackFrom(status, kind, s[1..])
  }

  function Thirds(s: seq<Triple>): seq<Player> {
    if s == [] then [] else [s[0].third] + Thirds(s[1..])
  }

  function NewIds(a: nat, b: nat): seq<Player>
    decreases b - a
  {
    if a < b then [a] + NewIds(a + 1, b) else []
  }

  /** What the pass over the tables of two from the i-th on makes of the lists, given who of the queue it passed. */
  ghost predicate SecondPassFrom(l: Lists, r: Lists, i: nat, passed: seq<Player>) {
    && i <= |l.two| && l.three <= r.three && l.nextId <= r.nextId && r.lost == l.lost && r.left == l.left
    && var s := l.two[i..];
       && passed + r.one == l.one + Again(l.status, l.kind, s)
       && multiset(r.deleted) == multiset(l.deleted) + multiset(GoneFrom(l.status, l.kind, s)) + multiset(Dead(l.status, passed))
       && multiset(r.pool) + multiset(Thirds(r.three[|l.three|..])) ==
          multiset(l.pool) + multiset(BackFrom(l.status, l.kind, s)) + multiset(Live(l.status, passed)) + multiset(NewIds(l.nextId, r.nextId))
  }

  /** One table's share of it. */
  ghost predicate OneTable(l: Lists, m: Lists, t: Pair, head: seq<Player>, formed: seq<Triple>) {
    && m.three == l.three + formed && l.nextId <= m.nextId && m.lost == l.lost && m.left == l.left
    && head + m.one == l.one + AgainAt(l.status, l.kind, t)
    && multiset(m.deleted) == multiset(l.deleted) + multiset(GoneAt(l.status, l.kind, t)) + multiset(Dead(l.status, head))
    && multiset(m.pool) + multiset(Thirds(formed)) ==
       multiset(l.pool) + multiset(BackAt(l.status, l.kind, t)) + multiset(Live(l.status, head)) + multiset(NewIds(l.nextId, m.nextId))
  }

  /** Status and type of those waiting and at the given tables are the same. */
  ghost predicate SameFor(l: Lists, m: Lists, s: seq<Pair>) {
    && (forall p | p in m.one :: StatusOf(l.status, p) == StatusOf(m.status, p) && KindOf(l.kind, p) == KindOf(m.kind, p))
    && (forall t, p | t in s && p in Both(t) :: StatusOf(l.status, p) == StatusOf(m.status, p) && KindOf(l.kind, p) == KindOf(m.kind, p))
  }

  lemma {:induction false} OthersAgree(kind: map<Player, Kind>, other: map<Player, Kind>, s: seq<Player>)
    requires forall p | p in s :: KindOf(kind, p) == KindOf(other, p)
    ensures O.Others(kind, s) == O.Others(other, s) && O.Ais(kind, s) == O.Ais(other, s)
    ensures forall p | p in O.Others(kind, s) :: p in s
  {
    hide KindOf;
    if s != [] {
      OthersAgree(kind, other, s[1..]);
    }
  }

  lemma {:induction false} LiveMembers(status: map<Player, nat>, s: seq<Player>)
    ensures forall p | p in Live(status, s) || p in Dead(status, s) :: p in s
  {
    hide Gone;
    if s != [] {
      LiveMembers(status, s[1..]);
      assert s == [s[0]] + s[1..];
      forall p | p in Live(status, s) || p in Dead(status, s) ensures p in s {
        assert p == s[0] || p in Live(status, s[1..]) || p in Dead(status, s[1..]);
        assert p == s[0] || p in s[1..];
      }
    }
  }

  lemma AgreeAt(l: Lists, m: Lists, t: Pair)
    requires forall p | p in Both(t) :: StatusOf(l.status, p) == StatusOf(m.status, p) && KindOf(l.kind, p) == KindOf(m.kind, p)
    ensures AgainAt(l.status, l.kind, t) == AgainAt(m.status, m.kind, t) && GoneAt(l.status, l.kind, t) == GoneAt(m.status, m.kind, t)
    ensures BackAt(l.status, l.kind, t) == BackAt(m.status, m.kind, t)
    ensures forall p | p in AgainAt(l.status, l.kind, t) :: p in Both(t)
  {
    var s := Both(t);
    assert t.first in s && t.second in s;
    hide StatusOf, KindOf, O.Others, O.Ais, Live, Dead;
    O.LiveAgrees(l.status, m.status, s);
    LiveMembers(l.status, s);
    OthersAgree(l.kind, m.kind, s);
    OthersAgree(l.kind, m.kind, Live(l.status, s));
    OthersAgree(l.kind, m.kind, Dead(l.status, s));
  }

  lemma {:induction false} AllAgree(l: Lists, m: Lists, s: seq<Pair>)
    requires SameFor(l, m, s)
    ensures Again(l.status, l.kind, s) == Again(m.status, m.kind, s) && GoneFrom(l.status, l.kind, s) == GoneFrom(m.status, m.kind, s)
    ensures BackFrom(l.status, l.kind, s) == BackFrom(m.status, m.kind, s)
    ensures forall p | p in Again(l.status, l.kind, s) :: StatusOf(l.status, p) == StatusOf(m.status, p)
  {
    hide AgainAt, GoneAt, BackAt, Both, StatusOf, KindOf;
    if s != [] {
      AgreeAt(l, m, s[0]);
      AllAgree(l, m, s[1..]);
    }
  }

  lemma {:induction false} LiveSplit(status: map<Player, nat>, a: seq<Player>, b: seq<Player>)
    ensures Live(status, a + b) == Live(status, a) + Live(status, b) && Dead(status, a + b) == Dead(status, a) + Dead(status, b)
  {
    hide Gone;
    if a == [] {
      assert a + b == b;
    } else {
      assert (a + b)[0] == a[0] && (a + b)[1..] == a[1..] + b;
      LiveSplit(status, a[1..], b);
    }
  }

  lemma {:induction false} ThirdsSplit(a: seq<Triple>, b: seq<Triple>)
    ensures Thirds(a + b) == Thirds(a) + Thirds(b)
  {
    if a == [] {
      assert a + b == b;
    } else {
      assert (a + b)[0] == a[0] && (a + b)[1..] == a[1..] + b;
      ThirdsSplit(a[1..], b);
    }
  }

  lemma {:induction false} IdsSplit(a: nat, b: nat, c: nat)
    requires a <= b <= c
    ensures NewIds(a, c) == NewIds(a, b) + NewIds(b, c)
    decreases b - a
  {
    if a < b {
      IdsSplit(a + 1, b, c);
    }
  }

  lemma Deleted(r: multiset<Player>, m: multiset<Player>, l: multiset<Player>, a: seq<Player>, b: seq<Player>, c: seq<Player>, d: seq<Player>)
    requires r == m + multiset(b) + multiset(d) && m == l + multiset(a) + multiset(c)
    ensures r == l + multiset(a + b) + multiset(c + d)
  {
  }

  lemma Pooled(r: multiset<Player>, m: multiset<Player>, l: multiset<Player>, f: seq<Player>, g: seq<Player>,
      a: seq<Player>, b: seq<Player>, c: seq<Player>, d: seq<Player>, x: seq<Player>, y: seq<Player>)
    requires r + multiset(g) == m + multiset(b) + multiset(d) + multiset(y)
    requires m + multiset(f) == l + multiset(a) + multiset(c) + multiset(x)
    ensures r + multiset(f + g) == l + multiset(a + b) + multiset(c + d) + multiset(x + y)
  {
    assert r + multiset(f + g) == (r + multiset(g)) + multiset(f);
    assert (m + multiset(f)) + multiset(b) + multiset(d) + multiset(y) == l + multiset(a + b) + multiset(c + d) + multiset(x + y);
  }

  lemma HeadOf(l: Lists, t: Pair, s: seq<Pair>)
    ensures Again(l.status, l.kind, [t] + s) == AgainAt(l.status, l.kind, t) + Again(l.status, l.kind, s)
    ensures GoneFrom(l.status, l.kind, [t] + s) == GoneAt(l.status, l.kind, t) + GoneFrom(l.status, l.kind, s)
    ensures BackFrom(l.status, l.kind, [t] + s) == BackAt(l.status, l.kind, t) + BackFrom(l.status, l.kind, s)
  {
    hide AgainAt, GoneAt, BackAt;
    assert ([t] + s)[0] == t && ([t] + s)[1..] == s;
  }

  lemma QueueJoins(head: seq<Player>, passed: seq<Player>, rest: seq<Player>, one: seq<Player>, again: seq<Player>, front: seq<Player>, q: seq<Player>)
    requires passed + rest == one + again && head + one == q + front
    ensures (head + passed) + rest == q + (front + again)
  {
    assert (head + passed) + rest == head + (passed + rest) == (head + one) + again;
  }

  lemma PassedSame(l: Lists, m: Lists, passed: seq<Player>, rest: seq<Player>, s: seq<Pair>)
    requires SameFor(l, m, s) && passed + rest == m.one + Again(m.status, m.kind, s)
    ensures Live(l.status, passed) == Live(m.status, passed) && Dead(l.status, passed) == Dead(m.status, passed)
  {
    hide StatusOf, KindOf, Again, Both;
    AllAgree(l, m, s);
    forall p | p in passed ensures StatusOf(l.status, p) == StatusOf(m.status, p) {
      assert p in passed + rest;
      assert p in m.one + Again(m.status, m.kind, s);
    }
    O.LiveAgrees(l.status, m.status, passed);
  }

  /** One table, and then the others. */
  lemma OneThenRest(l: Lists, m: Lists, r: Lists, i: nat, j: nat, head: seq<Player>, formed: seq<Triple>, passed: seq<Player>)
    requires i < |l.two| && j <= |m.two| && l.two[i..] == [l.two[i]] + m.two[j..]
    requires OneTable(l, m, l.two[i], head, formed) && SameFor(l, m, m.two[j..]) && SecondPassFrom(m, r, j, passed)
    ensures SecondPassFrom(l, r, i, head + passed)
  {
    hide AgainAt, GoneAt, BackAt, Again, GoneFrom, BackFrom, Live, Dead, Thirds, NewIds, SameFor;
    var t, s := l.two[i], m.two[j..];
    AllAgree(l, m, s);
    HeadOf(l, t, s);
    PassedSame(l, m, passed, r.one, s);
    LiveSplit(l.status, head, passed);
    QueueJoins(head, passed, r.one, m.one, Again(l.status, l.kind, s), AgainAt(l.status, l.kind, t), l.one);
    Deleted(multiset(r.deleted), multiset(m.deleted), multiset(l.deleted), GoneAt(l.status, l.kind, t), GoneFrom(l.status, l.kind, s),
            Dead(l.status, head), Dead(l.status, passed));
    var more := r.three[|m.three|..];
    assert r.three[|l.three|..] == formed + more;
    ThirdsSplit(formed, more);
    IdsSplit(l.nextId, m.nextId, r.nextId);
    Pooled(multiset(r.pool), multiset(m.pool), multiset(l.pool), Thirds(formed), Thirds(more),
           BackAt(l.status, l.kind, t), BackFrom(l.status, l.kind, s), Live(l.status, head), Live(l.status, passed),
           NewIds(l.nextId, m.nextId), NewIds(m.nextId, r.nextId));
  }

  // ---------------------------------------------------------------- its steps

  lemma Counted(a: seq<Player>, b: seq<Player>)
    ensures multiset(a + b) == multiset(a) + multiset(b)
    ensures multiset(a) + multiset([]) == multiset(a)
  {
  }

  lemma NothingThere(status: map<Player, nat>, a: nat)
    ensures Live(status, []) == [] && Dead(status, []) == [] && Thirds([]) == [] && NewIds(a, a) == []
  {
  }

  lemma BrokenLeaves(l: Lists, i: nat)
    requires i < |l.two| && Broken(l.status, l.two[i])
    ensures OneTable(l, LogoutTwo(l, i), l.two[i], [], [])
  {
    hide Gone, LogoutTwo, Live, Dead, O.Ais, O.Others, Thirds, NewIds, Both;
    var t, m := l.two[i], LogoutTwo(l, i);
    LogoutTwoLeaves(l, i);
    NothingThere(l.status, l.nextId);
    Counted(l.deleted, GoneAt(l.status, l.kind, t));
    Counted(l.pool, BackAt(l.status, l.kind, t));
    Counted(m.deleted, []);
    Counted(m.pool, []);
    assert [] + m.one == m.one && l.three + [] == l.three;
  }

  lemma FrontOf(l: Lists)
    requires l.one != []
    ensures Live(l.status, [l.one[0]]) == O.If(!Gone(l.status, l.one[0]), l.one[0])
    ensures Dead(l.status, [l.one[0]]) == O.If(Gone(l.status, l.one[0]), l.one[0])
    ensures [l.one[0]] + l.one[1..] == l.one
  {
    hide Gone, Live, Dead, O.If;
    var p := l.one[0];
    O.LiveHead(l.status, [p]);
    assert [p][1..] == [];
    Joined(O.If(!Gone(l.status, p), p), [], []);
    Joined(O.If(Gone(l.status, p), p), [], []);
  }

  lemma WaiterLeaves(l: Lists, i: nat)
    requires i < |l.two| && !Broken(l.status, l.two[i]) && l.one != [] && !Gone(l.status, l.one[0])
    ensures OneTable(l, JoinWaiter(l, i), l.two[i], [l.one[0]], [Triple(l.two[i], l.one[0])])
  {
    FrontOf(l);
    NothingThere(l.status, l.nextId);
    assert Thirds([Triple(l.two[i], l.one[0])]) == [l.one[0]];
    hide Gone, Live, Dead, Thirds, NewIds;
    assert l.one + [] == l.one;
    Counted(l.deleted, []);
    Counted(l.pool, []);
  }

  lemma StaysLeaves(l: Lists, i: nat)
    requires i < |l.two| && !Broken(l.status, l.two[i]) && (l.one == [] || Gone(l.status, l.one[0]))
    ensures OneTable(l, Skimmed(l), l.two[i], Front(l.one), [])
  {
    SkimmedLeaves(l);
    SkimmedIs(l);
    NothingThere(l.status, l.nextId);
    if l.one != [] {
      FrontOf(l);
    }
    hide Gone, Live, Dead, Thirds, NewIds, Skimmed;
    assert l.one + [] == l.one && l.three + [] == l.three;
    Counted(l.deleted, Front(l.one));
    Counted(l.deleted, []);
    Counted(l.pool, []);
  }

  lemma AiLeaves(l: Lists, i: nat)
    requires i < |l.two| && !Broken(l.status, l.two[i]) && (l.one == [] || Gone(l.status, l.one[0]))
    ensures OneTable(l, JoinAi(Skimmed(l), i), l.two[i], Front(l.one), [Triple(l.two[i], NextAi(Skimmed(l)))])
  {
    hide Gone, Live, Dead, Thirds, NewIds, Skimmed, NextAi, Broken, Engaged, Front;
    var s, m := Skimmed(l), JoinAi(Skimmed(l), i);
    var p := NextAi(s);
    StaysLeaves(l, i);
    OneThird(l.two[i], p);
    NothingThere(l.status, l.nextId);
    TakenOn(s);
    JoinAiIs(s, i);
    PoolGrows(multiset(m.pool), multiset(s.pool), multiset(l.pool), p, multiset(BackAt(l.status, l.kind, l.two[i])),
              multiset(Live(l.status, Front(l.one))), multiset(NewIds(l.nextId, m.nextId)));
  }

  lemma OneThird(t: Pair, p: Player)
    ensures Thirds([Triple(t, p)]) == [p] && Thirds([]) == []
  {
    assert [Triple(t, p)][1..] == [];
  }

  lemma JoinAiIs(l: Lists, i: nat)
    requires i < |l.two|
    ensures var m := JoinAi(l, i);
            && m.three == l.three + [Triple(l.two[i], NextAi(l))] && m.one == l.one && m.deleted == l.deleted && m.lost == l.lost
            && m.left == l.left && m.pool == Engaged(l).pool && m.nextId == Engaged(l).nextId && l.nextId <= m.nextId
  {
    hide NextAi;
  }

  lemma PoolGrows(m: multiset<Player>, s: multiset<Player>, l: multiset<Player>, p: Player,
      back: multiset<Player>, live: multiset<Player>, ids: multiset<Player>)
    requires s + multiset([]) == l + back + live + multiset([]) && m + multiset([p]) == s + ids
    ensures m + multiset([p]) == l + back + live + ids
  {
    var none: seq<Player> := [];
    assert multiset(none) == multiset{};
    assert s + multiset(none) == s && l + back + live + multiset(none) == l + back + live;
  }

  /** An AI player comes from the pool or is new. */
  lemma TakenOn(l: Lists)
    ensures multiset(Engaged(l).pool) + multiset([NextAi(l)]) == multiset(l.pool) + multiset(NewIds(l.nextId, Engaged(l).nextId))
  {
    if l.pool == [] {
      assert NewIds(l.nextId, l.nextId + 1) == [l.nextId] + NewIds(l.nextId + 1, l.nextId + 1);
    } else {
      assert l.pool == l.pool[..|l.pool| - 1] + [NextAi(l)];
      assert NewIds(l.nextId, l.nextId) == [];
    }
  }

  lemma SameWithoutChange(l: Lists, m: Lists, s: seq<Pair>)
    requires m.status == l.status && m.kind == l.kind
    ensures SameFor(l, m, s)
  {
  }

  lemma SameAfterAi(l: Lists, i: nat)
    requires Proper(Account(l)) && i < |l.two| && i <= |Without(l.two, i)|
    ensures SameFor(l, JoinAi(l, i), Without(l.two, i)[i..])
  {
    hide Account, Proper, NextAi, StatusOf, KindOf, Without, JoinAi;
    var m := JoinAi(l, i);
    NewcomerIsNotSeated(l);
    JoinAiElsewhere(l, i);
    forall q | q in m.one ensures q != NextAi(l) {
      WaitingIsSeated(l, q);
    }
    forall t, q | t in Without(l.two, i)[i..] && q in Both(t) ensures q != NextAi(l) {
      StillAtTwo(l, i, t);
      var k :| 0 <= k < |l.two| && l.two[k] == t;
      SeatedAtTwo(l, k);
    }
  }

  lemma StillAtTwo(l: Lists, i: nat, t: Pair)
    requires i < |l.two| && i <= |Without(l.two, i)| && t in Without(l.two, i)[i..]
    ensures t in l.two
  {
  }

  lemma JoinAiElsewhere(l: Lists, i: nat)
    requires i < |l.two|
    ensures var m := JoinAi(l, i);
            && m.one == l.one
            && forall q | q != NextAi(l) :: StatusOf(l.status, q) == StatusOf(m.status, q) && KindOf(l.kind, q) == KindOf(m.kind, q)
  {
    hide NextAi;
  }

  lemma WaitingIsSeated(l: Lists, q: Player)
    requires q in l.one
    ensures q in Account(l).seats
  {
    hide SeatsTwo, SeatsThree;
    assert q in multiset(l.one);
  }

  lemma RestAfter(two: seq<Pair>, i: nat)
    requires i < |two|
    ensures i <= |Without(two, i)| && two[i..] == [two[i]] + Without(two, i)[i..] && two[i..] == [two[i]] + two[i + 1..]
  {
  }

  lemma NoTableLeft(l: Lists)
    ensures SecondPassFrom(l, l, |l.two|, [])
  {
    NothingThere(l.status, l.nextId);
    hide Live, Dead, Thirds, NewIds;
    assert l.two[|l.two|..] == [] && l.three[|l.three|..] == [];
    assert l.one + [] == l.one && [] + l.one == l.one;
  }

  lemma {:induction false} PassTwoLeaves(l: Lists, i: nat, expired: set<Player>) returns (passed: seq<Player>)
    requires Proper(Account(l)) && i <= |l.two|
    ensures SecondPassFrom(l, PassTwo(l, i, expired), i, passed)
    decreases |l.two| - i
  {
    hide Kept, Proper, Account, Gone, LogoutTwo, JoinWaiter, JoinAi, Skimmed, SecondPassFrom, OneTable, SameFor, NextAi, Without;
    var r := PassTwo(l, i, expired);
    if i == |l.two| {
      passed := [];
      NoTableLeft(l);
    } else {
      var t, s := l.two[i], Skimmed(l);
      StepTwoKeeps(l, i);
      RestAfter(l.two, i);
      var m, j, head, formed;
      if Gone(l.status, t.first) || Gone(l.status, t.second) {
        m, j, head, formed := LogoutTwo(l, i), i, [], [];
        LogoutTwoKept(l, i);
        LogoutTwoIs(l, i);
        BrokenLeaves(l, i);
        SameWithoutChange(l, m, m.two[j..]);
      } else if l.one != [] && !Gone(l.status, l.one[0]) {
        m, j, head, formed := JoinWaiter(l, i), i, [l.one[0]], [Triple(t, l.one[0])];
        JoinWaiterKept(l, i);
        KeptRefl(Account(l));
        WaiterLeaves(l, i);
        JoinedSame(l, i);
        SameWithoutChange(l, m, m.two[j..]);
      } else if t.first in expired || t.second in expired {
        m, j, head, formed := JoinAi(s, i), i, Front(l.one), [Triple(t, NextAi(s))];
        SkimmedKept(l);
        ProperKept(Account(l), Account(s));
        JoinAiKept(s, i);
        KeptTransitive(Account(l), Account(s), Account(m));
        AiLeaves(l, i);
        SameAfterAi(s, i);
        SameThrough(l, s, m, m.two[j..]);
      } else {
        m, j, head, formed := s, i + 1, Front(l.one), [];
        SkimmedKept(l);
        StaysLeaves(l, i);
        SameWithoutChange(l, m, m.two[j..]);
      }
      ProperKept(Account(l), Account(m));
      var rest := PassTwoLeaves(m, j, expired);
      passed := head + rest;
      OneThenRest(l, m, r, i, j, head, formed, rest);
    }
  }

  lemma JoinedSame(l: Lists, i: nat)
    requires i < |l.two| && l.one != []
    ensures JoinWaiter(l, i).status == l.status && JoinWaiter(l, i).kind == l.kind
  {
  }

  lemma SameThrough(l: Lists, s: Lists, m: Lists, two: seq<Pair>)
    requires s.status == l.status && s.kind == l.kind && SameFor(s, m, two)
    ensures SameFor(l, m, two)
  {
  }

  /**
   * The second pass in closed form. Behind the waiting list queue, in order of the tables, the players
   * left alone at tables with one logged-out player; what still waits is the end of that queue. Deleted
   * are the logged-out players of broken tables and of the part of the queue that was passed. The live
   * ones of that part, and AI players from the pool, from broken tables, or new, are the third players
   * of the tables formed; the other AI players are in the pool.
   */
  lemma {:induction false} SecondPassResult(l: Lists, expired: set<Player>) returns (passed: seq<Player>)
    requires Proper(Account(l))
    ensures var r := PassTwo(l, 0, expired);
            && l.three <= r.three && l.nextId <= r.nextId && r.lost == l.lost && r.left == l.left
            && passed + r.one == l.one + Again(l.status, l.kind, l.two)
            && multiset(r.deleted) == multiset(l.deleted) + multiset(GoneFrom(l.status, l.kind, l.two)) + multiset(Dead(l.status, passed))
            && multiset(r.pool) + multiset(Thirds(r.three[|l.three|..])) ==
               multiset(l.pool) + multiset(BackFrom(l.status, l.kind, l.two)) + multiset(Live(l.status, passed))
               + multiset(NewIds(l.nextId, r.nextId))
  {
    hide Proper, Account, PassTwo;
    passed := PassTwoLeaves(l, 0, expired);
    assert l.two[0..] == l.two;
  }
}
