/**
 * Where every player of a room is: in a seat, in the pool of AI players, deleted, gone home after a
 * round, or dropped. Moves between these places, and what any sequence of moves keeps.
 */
module Ledger {

  type Player = nat

  datatype Kind = User | ReplaceAi | Ai

  const STARTING := 0x01
  const DEALING_CARD := 0x03
  const ROUNDOVERED := 0x0B
  const LOG_OUTED := 0x20

  /** `seats` covers the waiting list and all tables; ids from `nextId` on are unused. */
  datatype Books = Books(
    seats: multiset<Player>, pool: multiset<Player>, deleted: multiset<Player>, left: multiset<Player>,
    lost: multiset<Player>, nextId: nat, status: map<Player, nat>, kind: map<Player, Kind>)

  function StatusOf(status: map<Player, nat>, p: Player): nat {
    if p in status then status[p] else 0
  }

  function KindOf(kind: map<Player, Kind>, p: Player): Kind {
    if p in kind then kind[p] else User
  }

  predicate Gone(status: map<Player, nat>, p: Player) {
    StatusOf(status, p) == LOG_OUTED
  }

  ghost function Total(b: Books): multiset<Player> {
    b.seats + b.pool + b.deleted + b.left + b.lost
  }

  /** Nobody is in two places, and unused ids are nowhere. */
  ghost predicate Proper(b: Books) {
    forall p: Player :: Total(b)[p] <= if p < b.nextId then 1 else 0
  }

  ghost predicate IsAi(b: Books, p: Player) {
    KindOf(b.kind, p) == Ai
  }

  ghost predicate LeftSince(a: Books, b: Books, p: Player) {
    b.left[p] > a.left[p]
  }

  /**
   * What moves keep. Players are conserved but for new AI players; only logged-out players and AI
   * players are deleted or stop or start being logged out, unless they went home; only AI players
   * enter the pool or take new seats.
   */
  ghost predicate Kept(a: Books, b: Books) {
    Counted(a, b) && Known(a, b)
  }

  ghost predicate Counted(a: Books, b: Books) {
    && a.nextId <= b.nextId
    && (forall p: Player :: Total(b)[p] == Total(a)[p] + if a.nextId <= p < b.nextId then 1 else 0)
    && (forall p: Player :: b.left[p] >= a.left[p])
    && (forall p: Player :: b.lost[p] >= a.lost[p])
    && (forall p: Player :: b.deleted[p] >= a.deleted[p])
  }

  ghost predicate Known(a: Books, b: Books) {
    forall p: Player :: KnownOne(a, b, p)
  }

  /** What may have changed about one player. */
  ghost predicate KnownOne(a: Books, b: Books, p: Player) {
    && (KindOf(b.kind, p) == KindOf(a.kind, p) || (IsAi(b, p) && (p in a.pool || p >= a.nextId)))
    && (Gone(b.status, p) == Gone(a.status, p) || IsAi(b, p) || LeftSince(a, b, p))
    && (b.deleted[p] > a.deleted[p] ==> Gone(a.status, p) || IsAi(b, p) || LeftSince(a, b, p))
    && (p in b.pool ==> p in a.pool || IsAi(b, p))
    && (p in b.seats ==> p in a.seats || IsAi(b, p))
  }

  lemma KeptRefl(a: Books)
    ensures Kept(a, a)
  {
  }

  lemma KeptTransitive(a: Books, b: Books, c: Books)
    requires Kept(a, b) && Kept(b, c)
    ensures Kept(a, c)
  {
    hide Total, Gone, KindOf;
    forall p: Player ensures KnownOne(a, c, p) {
      KnownTransitive(a, b, c, p);
    }
  }

  lemma KnownTransitive(a: Books, b: Books, c: Books, p: Player)
    requires Counted(a, b) && Counted(b, c) && KnownOne(a, b, p) && KnownOne(b, c, p)
    ensures KnownOne(a, c, p)
  {
    hide Total, Gone;
  }

  lemma ProperKept(a: Books, b: Books)
    requires Proper(a) && Kept(a, b)
    ensures Proper(b)
  {
    hide Total;
  }

  /** Players who are seated, not logged out and not AI. */
  ghost function LiveHumans(b: Books): set<Player> {
    set p: Player | p in b.seats && !Gone(b.status, p) && !IsAi(b, p)
  }

  /**
   * No move takes a live human out of his seat, or puts one into it, except by going home after a
   * round or by being dropped.
   */
  lemma LiveHumansKept(a: Books, b: Books)
    requires Proper(a) && Kept(a, b)
    ensures LiveHumans(b) == set p: Player | p in LiveHumans(a) && b.left[p] == a.left[p] && b.lost[p] == a.lost[p]
  {
    ProperKept(a, b);
    forall p: Player ensures p in LiveHumans(b) <==> p in LiveHumans(a) && b.left[p] == a.left[p] && b.lost[p] == a.lost[p] {
      if p in LiveHumans(b) {
        StillSeated(a, b, p);
      }
      if p in LiveHumans(a) && b.left[p] == a.left[p] && b.lost[p] == a.lost[p] {
        StaysSeated(a, b, p);
      }
    }
  }

  lemma StillSeated(a: Books, b: Books, p: Player)
    requires Proper(b) && Kept(a, b) && p in LiveHumans(b)
    ensures p in LiveHumans(a) && b.left[p] == a.left[p] && b.lost[p] == a.lost[p]
  {
    assert KnownOne(a, b, p);
    assert Total(b)[p] <= 1;
    assert b.seats[p] + b.left[p] + b.lost[p] <= Total(b)[p];
  }

  lemma StaysSeated(a: Books, b: Books, p: Player)
    requires Proper(a) && Kept(a, b) && p in LiveHumans(a) && b.left[p] == a.left[p] && b.lost[p] == a.lost[p]
    ensures p in LiveHumans(b)
  {
    assert KnownOne(a, b, p);
    assert Total(a)[p] <= 1 && p < a.nextId;
    assert Total(a)[p] == a.seats[p] + a.pool[p] + a.deleted[p] + a.left[p] + a.lost[p];
    assert Total(b)[p] == b.seats[p] + b.pool[p] + b.deleted[p] + b.left[p] + b.lost[p];
    assert p !in a.pool && KindOf(b.kind, p) == KindOf(a.kind, p);
  }

  // ---------------------------------------------------------------- the moves

  function Delete(b: Books, p: Player): Books {
    b.(seats := b.seats - multiset{p}, deleted := b.deleted + multiset{p})
  }

  lemma DeleteKept(b: Books, p: Player)
    requires p in b.seats && (Gone(b.status, p) || IsAi(b, p))
    ensures Kept(b, Delete(b, p))
  {
  }

  function ToPool(b: Books, p: Player, status: map<Player, nat>): Books {
    b.(seats := b.seats - multiset{p}, pool := b.pool + multiset{p}, status := status)
  }

  lemma ToPoolKept(b: Books, p: Player, status: map<Player, nat>)
    requires p in b.seats && IsAi(b, p) && (status == b.status || status == b.status[p := LOG_OUTED])
    ensures Kept(b, ToPool(b, p, status))
  {
  }

  function Lose(b: Books, p: Player): Books {
    b.(seats := b.seats - multiset{p}, lost := b.lost + multiset{p})
  }

  lemma LoseKept(b: Books, p: Player)
    requires p in b.seats
    ensures Kept(b, Lose(b, p))
  {
  }

  /** Going home, possibly logged out on the way. */
  function Leave(b: Books, p: Player, status: map<Player, nat>): Books {
    b.(seats := b.seats - multiset{p}, left := b.left + multiset{p}, status := status)
  }

  lemma LeaveKept(b: Books, p: Player, status: map<Player, nat>)
    requires p in b.seats && (status == b.status || status == b.status[p := LOG_OUTED])
    ensures Kept(b, Leave(b, p, status))
  {
  }

  function Deal(b: Books, p: Player): Books {
    b.(status := b.status[p := DEALING_CARD])
  }

  lemma DealKept(b: Books, p: Player)
    requires !Gone(b.status, p)
    ensures Kept(b, Deal(b, p))
  {
  }

  /** An AI player, from the pool or new, takes a seat. */
  function Engage(b: Books, p: Player): Books {
    b.(seats := b.seats + multiset{p}, pool := b.pool - multiset{p}, nextId := if p in b.pool then b.nextId else b.nextId + 1,
       status := b.status[p := STARTING], kind := b.kind[p := Ai])
  }

  lemma EngageKept(b: Books, p: Player)
    requires p in b.pool || p == b.nextId
    ensures Kept(b, Engage(b, p))
  {
    var c := Engage(b, p);
    EngageCounted(b, p);
    forall q: Player ensures KnownOne(b, c, q) {
      hide Total;
    }
  }

  lemma EngageCounted(b: Books, p: Player)
    requires p in b.pool || p == b.nextId
    ensures Counted(b, Engage(b, p))
  {
    var c := Engage(b, p);
    forall q: Player ensures Total(c)[q] == Total(b)[q] + if b.nextId <= q < c.nextId then 1 else 0 {
      assert c.seats[q] == b.seats[q] + if q == p then 1 else 0;
      assert p in b.pool ==> c.pool[q] == b.pool[q] - if q == p then 1 else 0;
      assert p !in b.pool ==> c.pool[q] == b.pool[q];
    }
  }
}
