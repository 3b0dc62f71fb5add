/**
 * Shuffling, dealing and playing cards. A hand is a buffer of 24 slots ended by a terminator: the
 * 17 slots of a player's own cards and, directly behind them, the 7 slots for bottom cards.
 */
module Cards {

  const DECK_SIZE := 54
  const CARD_NUMBER := 17
  const BASIC_CARD := 7
  const SLOTS := CARD_NUMBER + BASIC_CARD
  const BOTTOM := 51
  const CARD_TERMINATE := 100

  /** Card codes: color in the high four bits, face in the low ones; two jokers at the end. */
  function Code(i: nat): nat {
    if i < 52 then 16 * (i / 13) + i % 13 else i + 9
  }

  function Deck(): seq<nat> {
    seq(DECK_SIZE, i requires 0 <= i => Code(i))
  }

  lemma DeckIsDistinct()
    ensures |Deck()| == 54
    ensures forall i, j :: 0 <= i < j < 54 ==> Deck()[i] != Deck()[j]
    ensures forall i :: 0 <= i < 54 ==> Deck()[i] < CARD_TERMINATE
  {
  }

  /** The codes of the deck: four colors of thirteen faces, and the jokers. */
  lemma {:induction false} DeckCodes(c: nat)
    ensures c in Deck() <==> (c / 16 < 4 && c % 16 < 13) || c == 61 || c == 62
  {
    var i := if c >= 61 then c - 9 else 13 * (c / 16) + c % 16;
    if i < DECK_SIZE && Code(i) == c {
      assert Deck()[i] == c;
    }
  }

  // ---------------------------------------------------------------- shuffling

  function Swapped(s: seq<nat>, i: nat, j: nat): (r: seq<nat>)
    requires i < |s| && j < |s|
    ensures |r| == |s|
  {
    s[i := s[j]][j := s[i]]
  }

  /** Each position in turn is swapped with the one drawn for it. */
  function Shuffled(s: seq<nat>, draws: seq<nat>, from: nat): (r: seq<nat>)
    requires |s| == DECK_SIZE && from + |draws| == DECK_SIZE
    ensures |r| == DECK_SIZE
    decreases |draws|
  {
    if draws == [] then s else Shuffled(Swapped(s, from, draws[0] % DECK_SIZE), draws[1..], from + 1)
  }

  lemma {:induction false} SwapKeepsCards(s: seq<nat>, i: nat, j: nat)
    requires i < |s| && j < |s|
    ensures multiset(Swapped(s, i, j)) == multiset(s)
  {
  }

  /** Whatever is drawn, shuffling only permutes. */
  lemma {:induction false} ShuffleKeepsCards(s: seq<nat>, draws: seq<nat>, from: nat)
    requires |s| == DECK_SIZE && from + |draws| == DECK_SIZE
    ensures multiset(Shuffled(s, draws, from)) == multiset(s)
    decreases |draws|
  {
    if draws != [] {
      SwapKeepsCards(s, from, draws[0] % DECK_SIZE);
      ShuffleKeepsCards(Swapped(s, from, draws[0] % DECK_SIZE), draws[1..], from + 1);
    }
  }

  lemma SwapInTail(s: seq<nat>, from: nat, k: nat)
    requires from <= k < |s|
    ensures var t := Swapped(s, from, k);
            && t[..from] == s[..from] && t[from] == s[k] && t[from..] == [s[k]] + t[from + 1..]
            && multiset(t[from..]) == multiset(s[from..])
  {
    var t := Swapped(s, from, k);
    assert t[from..] == Swapped(s[from..], 0, k - from);
    SwapKeepsCards(s[from..], 0, k - from);
  }

  /** Where the wanted card stands in what is not settled yet. */
  lemma StandsAt(s: seq<nat>, p: seq<nat>, from: nat) returns (k: nat)
    requires from < |s| == |p| && multiset(s[from..]) == multiset(p[from..])
    ensures from <= k < |s| && s[k] == p[from]
  {
    assert p[from] == p[from..][0] && p[from] in multiset(p[from..]);
    assert p[from] in s[from..];
    var j :| 0 <= j < |s[from..]| && s[from..][j] == p[from];
    k := from + j;
  }

  lemma SameRest(c: nat, a: seq<nat>, b: seq<nat>)
    requires multiset([c] + a) == multiset([c] + b)
    ensures multiset(a) == multiset(b)
  {
    assert multiset(a) == multiset([c] + a) - multiset{c};
    assert multiset(b) == multiset([c] + b) - multiset{c};
  }

  lemma SettleOne(s: seq<nat>, p: seq<nat>, from: nat, k: nat)
    requires from <= k < |s| == |p| && s[k] == p[from]
    requires s[..from] == p[..from] && multiset(s[from..]) == multiset(p[from..])
    ensures var t := Swapped(s, from, k);
            t[..from + 1] == p[..from + 1] && multiset(t[from + 1..]) == multiset(p[from + 1..])
  {
    hide Swapped;
    var t := Swapped(s, from, k);
    SwapInTail(s, from, k);
    assert p[from..] == [p[from]] + p[from + 1..];
    SameRest(p[from], t[from + 1..], p[from + 1..]);
    assert t[..from + 1] == t[..from] + [t[from]] && p[..from + 1] == p[..from] + [p[from]];
  }

  lemma NoDraws(s: seq<nat>)
    requires |s| == DECK_SIZE
    ensures Shuffled(s, [], DECK_SIZE) == s
  {
  }

  lemma FirstDraw(s: seq<nat>, k: nat, rest: seq<nat>, from: nat)
    requires |s| == DECK_SIZE && from + 1 + |rest| == DECK_SIZE
    ensures Shuffled(s, [k] + rest, from) == Shuffled(Swapped(s, from, k % DECK_SIZE), rest, from + 1)
  {
    assert ([k] + rest)[1..] == rest;
  }

  lemma {:induction false} DrawsFor(s: seq<nat>, p: seq<nat>, from: nat) returns (draws: seq<nat>)
    requires |s| == |p| == DECK_SIZE && from <= DECK_SIZE
    requires s[..from] == p[..from] && multiset(s[from..]) == multiset(p[from..])
    ensures from + |draws| == DECK_SIZE && Shuffled(s, draws, from) == p
    ensures forall i | 0 <= i < |draws| :: from + i <= draws[i] < DECK_SIZE
    decreases DECK_SIZE - from
  {
    hide Swapped, Shuffled;
    if from == DECK_SIZE {
      assert s == s[..from] && p == p[..from];
      draws := [];
      NoDraws(s);
    } else {
      var k := StandsAt(s, p, from);
      var t := Swapped(s, from, k);
      SettleOne(s, p, from, k);
      var rest := DrawsFor(t, p, from + 1);
      draws := [k] + rest;
      FirstDraw(s, k, rest, from);
    }
  }

  /** Every order of the deck comes from some draws. */
  lemma {:induction false} EveryOrderIsDrawn(p: seq<nat>)
    requires multiset(p) == multiset(Deck())
    ensures exists draws: seq<nat> ::
              |draws| == DECK_SIZE && (forall i | 0 <= i < DECK_SIZE :: draws[i] < DECK_SIZE) && Shuffled(Deck(), draws, 0) == p
  {
    hide Shuffled, Deck;
    SameSize(p);
    assert Deck()[0..] == Deck() && p[0..] == p;
    var draws := DrawsFor(Deck(), p, 0);
  }

  lemma SameSize(p: seq<nat>)
    requires multiset(p) == multiset(Deck())
    ensures |p| == |Deck()| == DECK_SIZE
  {
    assert |multiset(p)| == |p| && |multiset(Deck())| == |Deck()|;
  }

  /** Draws that move nothing: each position is swapped with itself. */
  function Still(from: nat): (r: seq<nat>)
    requires from <= DECK_SIZE
    ensures |r| == DECK_SIZE - from
    decreases DECK_SIZE - from
  {
    if from == DECK_SIZE then [] else [from] + Still(from + 1)
  }

  lemma {:induction false} StillKeeps(s: seq<nat>, from: nat)
    requires |s| == DECK_SIZE && from <= DECK_SIZE
    ensures Shuffled(s, Still(from), from) == s
    decreases DECK_SIZE - from
  {
    if from < DECK_SIZE {
      assert Swapped(s, from, from) == s;
      assert Still(from)[1..] == Still(from + 1);
      StillKeeps(s, from + 1);
    }
  }

  /**
   * Each draw decides one swap: with the draw d in turn i, and nothing moved in the others, the cards
   * at i and at d modulo 54 change places and the rest stay.
   */
  lemma {:induction false} OneDrawSwaps(s: seq<nat>, from: nat, i: nat, d: nat)
    requires |s| == DECK_SIZE && from <= i < DECK_SIZE
    ensures var r, j := Shuffled(s, Still(from)[i - from := d], from), d % 54;
            r[i] == s[j] && r[j] == s[i] && forall k | 0 <= k < DECK_SIZE && k != i && k != j :: r[k] == s[k]
    decreases i - from
  {
    hide Still, Shuffled;
    StillStarts(from);
    var draws := Still(from)[i - from := d];
    if i == from {
      assert draws == [d] + Still(from + 1);
      FirstDraw(s, d, Still(from + 1), from);
      StillKeeps(Swapped(s, i, d % DECK_SIZE), from + 1);
    } else {
      var rest := Still(from + 1)[i - from - 1 := d];
      assert draws == [from] + rest;
      FirstDraw(s, from, rest, from);
      assert Swapped(s, from, from) == s;
      OneDrawSwaps(s, from + 1, i, d);
    }
  }

  lemma StillStarts(from: nat)
    requires from < DECK_SIZE
    ensures Still(from) == [from] + Still(from + 1)
  {
  }

  /** Fills the array with the deck and shuffles it in place; `draws` are the random numbers. */
  method ShuffleCard(cards: array<nat>, draws: seq<nat>)
    requires cards.Length == DECK_SIZE && |draws| == DECK_SIZE
    modifies cards
    ensures cards[..] == Shuffled(Deck(), draws, 0)
    ensures multiset(cards[..]) == multiset(Deck())
  {
    FillDeck(cards);
    var i := 0;
    while i < DECK_SIZE
      invariant i <= DECK_SIZE
      invariant Shuffled(cards[..], draws[i..], i) == Shuffled(Deck(), draws, 0)
    {
      var r := draws[i] % DECK_SIZE;
      ghost var before := cards[..];
      assert draws[i..][0] == draws[i] && draws[i..][1..] == draws[i + 1..];
      if i != r {
        var swap := cards[i];
        cards[i] := cards[r];
        cards[r] := swap;
      }
      assert cards[..] == Swapped(before, i, r);
      i := i + 1;
    }
    ShuffleKeepsCards(Deck(), draws, 0);
  }

  method FillDeck(cards: array<nat>)
    requires cards.Length == DECK_SIZE
    modifies cards
    ensures cards[..] == Deck()
  {
    var next := 0;
    var color := 0;
    while color < 4
      invariant color <= 4 && next == 13 * color
      invariant forall k :: 0 <= k < next ==> cards[k] == Code(k)
    {
      var card := 0;
      while card < 13
        invariant card <= 13 && next == 13 * color + card
        invariant forall k :: 0 <= k < next ==> cards[k] == Code(k)
      {
        cards[next] := 16 * color + card;
        next, card := next + 1, card + 1;
      }
      color := color + 1;
    }
    cards[next] := 61;
    next := next + 1;
    cards[next] := 62;
  }

  // ---------------------------------------------------------------- hands

  /** The cards before the terminator. */
  function Face(s: seq<nat>): (r: seq<nat>)
    ensures |r| <= |s|
    ensures CARD_TERMINATE !in r
  {
    if s == [] || s[0] == CARD_TERMINATE then [] else [s[0]] + Face(s[1..])
  }

  /** The hand without the first occurrence of a card. */
  function Without(hand: seq<nat>, card: nat): seq<nat> {
    if hand == [] then [] else if hand[0] == card then hand[1..] else [hand[0]] + Without(hand[1..], card)
  }

  function WithoutAll(hand: seq<nat>, out: seq<nat>): seq<nat>
    decreases |out|
  {
    if out == [] then hand else WithoutAll(Without(hand, out[0]), out[1..])
  }

  ghost predicate Subsequence(a: seq<nat>, b: seq<nat>) {
    a == [] || (b != [] && ((a[0] == b[0] && Subsequence(a[1..], b[1..])) || Subsequence(a, b[1..])))
  }

  lemma {:induction false} FaceOf(s: seq<nat>, n: nat)
    requires n < |s| && s[n] == CARD_TERMINATE && forall k :: 0 <= k < n ==> s[k] != CARD_TERMINATE
    ensures Face(s) == s[..n]
  {
    if n > 0 {
      FaceOf(s[1..], n - 1);
      assert s[..n] == [s[0]] + s[1..][..n - 1];
    }
  }

  lemma {:induction false} FaceEnds(s: seq<nat>)
    requires CARD_TERMINATE in s
    ensures |Face(s)| < |s| && s[|Face(s)|] == CARD_TERMINATE && Face(s) == s[..|Face(s)|]
  {
    if s[0] != CARD_TERMINATE {
      assert s == [s[0]] + s[1..];
      FaceEnds(s[1..]);
    }
  }

  lemma {:induction false} FaceWithin(s: seq<nat>, n: nat)
    requires n < |s| && s[n] == CARD_TERMINATE
    ensures |Face(s)| <= n
  {
    if n > 0 && s[0] != CARD_TERMINATE {
      FaceWithin(s[1..], n - 1);
    }
  }

  lemma {:induction false} WithoutIsShorter(hand: seq<nat>, card: nat)
    ensures |Without(hand, card)| <= |hand|
  {
    if hand != [] {
      WithoutIsShorter(hand[1..], card);
    }
  }

  lemma {:induction false} WithoutAt(hand: seq<nat>, card: nat, k: nat)
    requires k <= |hand| && (forall i :: 0 <= i < k ==> hand[i] != card) && (k < |hand| ==> hand[k] == card)
    ensures Without(hand, card) == if k < |hand| then hand[..k] + hand[k + 1..] else hand
  {
    if k > 0 {
      WithoutAt(hand[1..], card, k - 1);
      assert hand == [hand[0]] + hand[1..];
      assert k < |hand| ==> hand[..k] + hand[k + 1..] == [hand[0]] + (hand[1..][..k - 1] + hand[1..][k..]);
    }
  }

  lemma ShiftedFace(was: seq<nat>, now: seq<nat>, n: nat, at: nat, card: nat)
    requires at <= n < |was| == |now| && card != CARD_TERMINATE
    requires was[n] == CARD_TERMINATE && forall k :: 0 <= k < n ==> was[k] != CARD_TERMINATE
    requires (forall k :: 0 <= k < at ==> was[k] != card) && (at < n ==> was[at] == card)
    requires forall k :: 0 <= k < at ==> now[k] == was[k]
    requires forall k :: at <= k < n ==> now[k] == was[k + 1]
    requires now[n] == was[n]
    ensures CARD_TERMINATE in now && Face(now) == Without(was[..n], card)
  {
    hide Face, Without;
    WithoutAt(was[..n], card, at);
    assert now[n] == CARD_TERMINATE;
    if at == n {
      FaceOf(now, n);
      assert now[..n] == was[..n];
    } else {
      FaceOf(now, n - 1);
      assert now[..n - 1] == was[..n][..at] + was[..n][at + 1..];
    }
  }

  /** Shifts the cards after the first occurrence of a card one slot to the left. */
  method RearrangeCards(cards: array<nat>, card: nat)
    requires CARD_TERMINATE in cards[..] && card != CARD_TERMINATE
    modifies cards
    ensures CARD_TERMINATE in cards[..]
    ensures Face(cards[..]) == Without(Face(old(cards[..])), card)
    ensures forall k :: |Face(old(cards[..]))| <= k < cards.Length ==> cards[k] == old(cards[k])
  {
    ghost var was := cards[..];
    ghost var n := |Face(was)|;
    FaceEnds(was);
    hide Face, Without;
    var i := 0;
    while cards[i] != CARD_TERMINATE
      invariant 0 <= i <= n && cards[..] == was
      invariant forall k :: 0 <= k < i ==> was[k] != card
      decreases n - i
    {
      if cards[i] == card {
        break;
      }
      i := i + 1;
    }
    ghost var at := i;
    while cards[i] != CARD_TERMINATE
      invariant at <= i <= n
      invariant forall k :: 0 <= k < at ==> cards[k] == was[k]
      invariant forall k :: at <= k < i ==> cards[k] == was[k + 1]
      invariant forall k :: i <= k < cards.Length ==> cards[k] == was[k]
      decreases n - i
    {
      cards[i] := cards[i + 1];
      i := i + 1;
    }
    ShiftedFace(was, cards[..], n, at, card);
  }

  /** Takes the played cards out of a hand one by one. */
  method UpdateCardsFace(self: array<nat>, out: array<nat>)
    requires self != out && CARD_TERMINATE in self[..] && CARD_TERMINATE in out[..]
    modifies self
    ensures CARD_TERMINATE in self[..]
    ensures Face(self[..]) == WithoutAll(Face(old(self[..])), Face(out[..]))
    ensures forall k :: |Face(old(self[..]))| <= k < self.Length ==> self[k] == old(self[k])
  {
    hide Face;
    ghost var played := Face(out[..]);
    ghost var n := |Face(self[..])|;
    FaceEnds(out[..]);
    if out[0] == CARD_TERMINATE {
      return;
    }
    var i := 0;
    while out[i] != CARD_TERMINATE
      invariant 0 <= i <= |played| && CARD_TERMINATE in self[..]
      invariant WithoutAll(Face(self[..]), played[i..]) == WithoutAll(Face(old(self[..])), played)
      invariant |Face(self[..])| <= n && forall k :: n <= k < self.Length ==> self[k] == old(self[k])
      decreases |played| - i
    {
      assert played[i] == out[i] && played[i..][1..] == played[i + 1..];
      WithoutIsShorter(Face(self[..]), out[i]);
      RearrangeCards(self, out[i]);
      i := i + 1;
    }
    assert played[i..] == [];
  }

  // ---------------------------------------------------------------- conservation by a play

  lemma {:induction false} WithoutKeeps(hand: seq<nat>, card: nat)
    ensures card in hand ==> multiset(hand) == multiset(Without(hand, card)) + multiset{card}
    ensures card !in hand ==> Without(hand, card) == hand
    ensures Subsequence(Without(hand, card), hand)
  {
    if hand != [] {
      assert hand == [hand[0]] + hand[1..];
      if hand[0] == card {
        SubsequenceOfItself(hand[1..]);
      } else {
        WithoutKeeps(hand[1..], card);
      }
    }
  }

  lemma {:induction false} SubsequenceOfItself(s: seq<nat>)
    ensures Subsequence(s, s)
  {
    if s != [] {
      SubsequenceOfItself(s[1..]);
    }
  }

  lemma {:induction false} SubsequenceTransitive(a: seq<nat>, b: seq<nat>, c: seq<nat>)
    requires Subsequence(a, b) && Subsequence(b, c)
    ensures Subsequence(a, c)
    decreases |c|
  {
    if a != [] && b != [] && c != [] {
      if b[0] == c[0] && Subsequence(b[1..], c[1..]) {
        if a[0] == b[0] && Subsequence(a[1..], b[1..]) {
          SubsequenceTransitive(a[1..], b[1..], c[1..]);
        } else {
          SubsequenceTransitive(a, b[1..], c[1..]);
        }
      } else {
        SubsequenceTransitive(a, b, c[1..]);
      }
    }
  }

  /** A play keeps the order of the hand. */
  lemma {:induction false} WithoutAllIsSubsequence(hand: seq<nat>, out: seq<nat>)
    ensures Subsequence(WithoutAll(hand, out), hand)
    decreases |out|
  {
    if out == [] {
      SubsequenceOfItself(hand);
    } else {
      WithoutKeeps(hand, out[0]);
      WithoutAllIsSubsequence(Without(hand, out[0]), out[1..]);
      SubsequenceTransitive(WithoutAll(hand, out), Without(hand, out[0]), hand);
    }
  }

  lemma OneLess(h: multiset<nat>, w: multiset<nat>, o: multiset<nat>, r: multiset<nat>, card: nat)
    requires h == w + multiset{card} && o == multiset{card} + r
    ensures o <= h <==> r <= w
  {
    if o <= h {
      forall x ensures r[x] <= w[x] {
        assert o[x] <= h[x];
      }
    }
  }

  lemma TooMuch(h: multiset<nat>, left: multiset<nat>, o: multiset<nat>)
    requires h == left + o
    ensures o <= h
  {
  }

  /** Cards left and cards played make up the hand exactly when the cards played were held. */
  lemma {:induction false} PlayConservesIff(hand: seq<nat>, out: seq<nat>)
    ensures multiset(hand) == multiset(WithoutAll(hand, out)) + multiset(out) <==> multiset(out) <= multiset(hand)
    decreases |out|
  {
    var left := multiset(WithoutAll(hand, out));
    if multiset(hand) == left + multiset(out) {
      TooMuch(multiset(hand), left, multiset(out));
    }
    if multiset(out) <= multiset(hand) && out != [] {
      var card := out[0];
      var less := Without(hand, card);
      assert out == [card] + out[1..];
      assert card in multiset(out) && card in multiset(hand);
      WithoutKeeps(hand, card);
      OneLess(multiset(hand), multiset(less), multiset(out), multiset(out[1..]), card);
      PlayConservesIff(less, out[1..]);
      assert multiset(hand) == (left + multiset(out[1..])) + multiset{card};
    }
  }

  // ---------------------------------------------------------------- the table

  /**
   * A player's cards: 17 slots of his own and 7 for bottom cards, one behind the other. A deal fills
   * the first 20, and nothing is ever written behind them.
   */
  class Player {
    const cards: array<nat>

    ghost predicate Valid()
      reads this, cards
    {
      cards.Length == SLOTS && forall k :: CARD_NUMBER + 3 <= k < SLOTS ==> cards[k] == CARD_TERMINATE
    }

    constructor ()
      ensures Valid() && fresh(cards) && Face(cards[..]) == []
      ensures forall k :: 0 <= k < SLOTS ==> cards[k] == CARD_TERMINATE
    {
      cards := new nat[SLOTS](_ => CARD_TERMINATE);
    }

    /** Between rounds every slot is a terminator. */
    method ResetGame()
      requires Valid()
      modifies cards
      ensures Valid() && forall k :: 0 <= k < SLOTS ==> cards[k] == CARD_TERMINATE
    {
      for i := 0 to SLOTS
        invariant forall k :: 0 <= k < i ==> cards[k] == CARD_TERMINATE
      {
        cards[i] := CARD_TERMINATE;
      }
    }

    /** Takes 17 cards from `from` and the three bottom cards, whatever is left of an earlier deal. */
    method DealCards(deck: array<nat>, from: nat)
      requires Valid() && deck.Length == DECK_SIZE && deck != cards && from + CARD_NUMBER <= BOTTOM
      requires CARD_TERMINATE !in deck[..]
      modifies cards
      ensures Valid() && Face(cards[..]) == deck[from..from + CARD_NUMBER] + deck[BOTTOM..]
    {
      for i := 0 to CARD_NUMBER
        invariant forall k :: 0 <= k < i ==> cards[k] == deck[from + k]
        invariant forall k :: CARD_NUMBER + 3 <= k < SLOTS ==> cards[k] == CARD_TERMINATE
      {
        cards[i] := deck[from + i];
      }
      for i := 0 to 3
        invariant forall k :: 0 <= k < CARD_NUMBER ==> cards[k] == deck[from + k]
        invariant forall k :: CARD_NUMBER <= k < CARD_NUMBER + i ==> cards[k] == deck[k + BOTTOM - CARD_NUMBER]
        invariant forall k :: CARD_NUMBER + 3 <= k < SLOTS ==> cards[k] == CARD_TERMINATE
      {
        cards[CARD_NUMBER + i] := deck[BOTTOM + i];
      }
      ghost var hand := deck[from..from + CARD_NUMBER] + deck[BOTTOM..];
      assert cards[..CARD_NUMBER + 3] == hand;
      forall k | 0 <= k < CARD_NUMBER + 3 ensures cards[k] != CARD_TERMINATE {
        assert cards[k] in deck[..];
      }
      FaceOf(cards[..], CARD_NUMBER + 3);
    }

    /** Plays the cards in `out`; the hand can be dealt anew afterwards. */
    method Play(out: array<nat>)
      requires Valid() && out != cards && CARD_TERMINATE in out[..]
      modifies cards
      ensures Valid() && Face(cards[..]) == WithoutAll(Face(old(cards[..])), Face(out[..]))
    {
      hide Face, WithoutAll;
      assert cards[CARD_NUMBER + 3] == CARD_TERMINATE;
      FaceWithin(cards[..], CARD_NUMBER + 3);
      UpdateCardsFace(cards, out);
    }
  }

  function Hand(deck: seq<nat>, from: nat): seq<nat>
    requires |deck| == DECK_SIZE && from + CARD_NUMBER <= BOTTOM
  {
    deck[from..from + CARD_NUMBER] + deck[BOTTOM..]
  }

  /**
   * Shuffles a deck and deals it to three players. When nobody takes the landlord's role the players
   * are dealt a new deck without a reset, so they may still hold cards.
   */
  method DealCards(p0: Player, p1: Player, p2: Player, draws: seq<nat>)
    requires p0.Valid() && p1.Valid() && p2.Valid() && |draws| == DECK_SIZE
    requires p0.cards != p1.cards && p0.cards != p2.cards && p1.cards != p2.cards
    modifies p0.cards, p1.cards, p2.cards
    ensures p0.Valid() && p1.Valid() && p2.Valid()
    ensures var deck := Shuffled(Deck(), draws, 0);
            && Face(p0.cards[..]) == Hand(deck, 0)
            && Face(p1.cards[..]) == Hand(deck, 17)
            && Face(p2.cards[..]) == Hand(deck, 34)
  {
    hide Face, Shuffled;
    var cards := new nat[DECK_SIZE];
    ShuffleCard(cards, draws);
    NoTerminator(cards[..]);
    p0.DealCards(cards, 0);
    p1.DealCards(cards, 17);
    p2.DealCards(cards, 34);
  }

  lemma NoTerminator(s: seq<nat>)
    requires multiset(s) == multiset(Deck())
    ensures CARD_TERMINATE !in s
  {
    DeckIsDistinct();
    assert CARD_TERMINATE !in multiset(Deck());
    assert CARD_TERMINATE !in multiset(s);
  }

  // ---------------------------------------------------------------- conservation over a round

  /** Three hands and what each player has played. */
  datatype Table = Table(hands: seq<seq<nat>>, played: seq<seq<nat>>)

  datatype Play = Play(who: nat, out: seq<nat>)

  ghost predicate IsTable(t: Table) {
    |t.hands| == 3 && |t.played| == 3
  }

  /** The cards played are in the player's hand. */
  ghost predicate Held(t: Table, p: Play) {
    IsTable(t) && p.who < 3 && multiset(p.out) <= multiset(t.hands[p.who])
  }

  function Step(t: Table, p: Play): Table
    requires p.who < |t.hands| == |t.played|
  {
    Table(t.hands[p.who := WithoutAll(t.hands[p.who], p.out)], t.played[p.who := t.played[p.who] + p.out])
  }

  ghost predicate IsRound(t: Table, round: seq<Play>)
    decreases |round|
  {
    IsTable(t) && (round == [] || (Held(t, round[0]) && IsRound(Step(t, round[0]), round[1..])))
  }

  ghost function After(t: Table, round: seq<Play>): (r: Table)
    requires IsRound(t, round)
    ensures IsTable(r)
    decreases |round|
  {
    if round == [] then t else After(Step(t, round[0]), round[1..])
  }

  /** What player `i` was dealt: what he holds and what he has played. */
  ghost function Owned(t: Table, i: nat): multiset<nat>
    requires IsTable(t) && i < 3
  {
    multiset(t.hands[i]) + multiset(t.played[i])
  }

  /** Over any round, a player's cards are conserved and those left are in the order they were dealt. */
  lemma {:induction false} RoundConserves(t: Table, round: seq<Play>, i: nat)
    requires IsRound(t, round) && i < 3
    ensures Owned(After(t, round), i) == Owned(t, i)
    ensures Subsequence(After(t, round).hands[i], t.hands[i])
    decreases |round|
  {
    hide Subsequence, WithoutAll;
    if round == [] {
      SubsequenceOfItself(t.hands[i]);
    } else {
      var u := Step(t, round[0]);
      RoundConserves(u, round[1..], i);
      if round[0].who == i {
        PlayConservesIff(t.hands[i], round[0].out);
        WithoutAllIsSubsequence(t.hands[i], round[0].out);
        SubsequenceTransitive(After(t, round).hands[i], u.hands[i], t.hands[i]);
      }
    }
  }

  function Dealt(deck: seq<nat>): Table
    requires |deck| == DECK_SIZE
  {
    Table([Hand(deck, 0), Hand(deck, 17), Hand(deck, 34)], [[], [], []])
  }

  /** The three own hands and the bottom cards partition the deck. */
  lemma DealPartitions(deck: seq<nat>)
    requires |deck| == DECK_SIZE
    ensures multiset(deck[0..17]) + multiset(deck[17..34]) + multiset(deck[34..51]) + multiset(deck[51..]) == multiset(deck)
  {
    assert deck == deck[0..17] + deck[17..34] + deck[34..51] + deck[51..];
  }

  ghost function All(t: Table): multiset<nat>
    requires IsTable(t)
  {
    Owned(t, 0) + Owned(t, 1) + Owned(t, 2)
  }

  /**
   * Whatever is drawn and however a round of held cards goes, hands and played cards together stay
   * the whole deck and two more copies of the bottom cards, which every player is dealt.
   */
  lemma {:induction false} GameConserves(draws: seq<nat>, round: seq<Play>)
    requires |draws| == DECK_SIZE && IsRound(Dealt(Shuffled(Deck(), draws, 0)), round)
    ensures var deck := Shuffled(Deck(), draws, 0);
            All(After(Dealt(deck), round)) == multiset(Deck()) + multiset(deck[BOTTOM..]) + multiset(deck[BOTTOM..])
  {
    hide Shuffled;
    var deck := Shuffled(Deck(), draws, 0);
    var t := Dealt(deck);
    RoundConserves(t, round, 0);
    RoundConserves(t, round, 1);
    RoundConserves(t, round, 2);
    OwnedAtDeal(deck);
    ShuffleKeepsCards(Deck(), draws, 0);
    DealPartitions(deck);
  }

  lemma OwnedAtDeal(deck: seq<nat>)
    requires |deck| == DECK_SIZE
    ensures Owned(Dealt(deck), 0) == multiset(deck[0..17]) + multiset(deck[BOTTOM..])
    ensures Owned(Dealt(deck), 1) == multiset(deck[17..34]) + multiset(deck[BOTTOM..])
    ensures Owned(Dealt(deck), 2) == multiset(deck[34..51]) + multiset(deck[BOTTOM..])
  {
  }

  // ---------------------------------------------------------------- how often a card is played

  /** How often a card appears in the plays of a round. */
  ghost function PlayedIn(round: seq<Play>, c: nat): nat {
    if round == [] then 0 else multiset(round[0].out)[c] + PlayedIn(round[1..], c)
  }

  ghost function PlayedBy(t: Table, i: nat, c: nat): nat
    requires IsTable(t) && i < 3
  {
    multiset(t.played[i])[c]
  }

  lemma PlayedStep(t: Table, p: Play, i: nat, c: nat)
    requires Held(t, p) && i < 3
    ensures PlayedBy(Step(t, p), i, c) == PlayedBy(t, i, c) + if p.who == i then multiset(p.out)[c] else 0
  {
  }

  lemma {:induction false} PlayedAfter(t: Table, round: seq<Play>, c: nat)
    requires IsRound(t, round)
    ensures var u := After(t, round);
            PlayedBy(u, 0, c) + PlayedBy(u, 1, c) + PlayedBy(u, 2, c)
            == PlayedBy(t, 0, c) + PlayedBy(t, 1, c) + PlayedBy(t, 2, c) + PlayedIn(round, c)
    decreases |round|
  {
    hide PlayedBy, Step;
    if round != [] {
      PlayedAfter(Step(t, round[0]), round[1..], c);
      PlayedStep(t, round[0], 0, c);
      PlayedStep(t, round[0], 1, c);
      PlayedStep(t, round[0], 2, c);
    }
  }

  /** A player's own 17 cards. */
  function Own(deck: seq<nat>, i: nat): seq<nat>
    requires |deck| == DECK_SIZE && i < 3
  {
    deck[17 * i..17 * i + 17]
  }

  lemma OwnedByDeal(deck: seq<nat>, i: nat)
    requires |deck| == DECK_SIZE && i < 3
    ensures Owned(Dealt(deck), i) == multiset(Own(deck, i)) + multiset(deck[BOTTOM..])
  {
    hide Owned;
    OwnedAtDeal(deck);
  }

  lemma PlayedIsOwned(t: Table, i: nat, c: nat)
    requires IsTable(t) && i < 3
    ensures PlayedBy(t, i, c) <= Owned(t, i)[c]
  {
  }

  /** A player plays a card at most as often as it is among his own cards and the bottom cards. */
  lemma PlayedFromHand(deck: seq<nat>, round: seq<Play>, i: nat, c: nat)
    requires |deck| == DECK_SIZE && i < 3 && IsRound(Dealt(deck), round)
    ensures PlayedBy(After(Dealt(deck), round), i, c) <= multiset(Own(deck, i))[c] + multiset(deck[BOTTOM..])[c]
  {
    hide After, IsRound, Subsequence, Owned, PlayedBy;
    RoundConserves(Dealt(deck), round, i);
    PlayedIsOwned(After(Dealt(deck), round), i, c);
    OwnedByDeal(deck, i);
  }

  lemma DeckCount(draws: seq<nat>, c: nat)
    requires |draws| == DECK_SIZE
    ensures var deck := Shuffled(Deck(), draws, 0);
            multiset(Own(deck, 0))[c] + multiset(Own(deck, 1))[c] + multiset(Own(deck, 2))[c] + multiset(deck[BOTTOM..])[c]
            == multiset(Deck())[c] <= 1
  {
    hide Shuffled;
    ShuffleKeepsCards(Deck(), draws, 0);
    DealPartitions(Shuffled(Deck(), draws, 0));
    DeckHasOneEach(c);
  }

  lemma PlayedInDealt(deck: seq<nat>, round: seq<Play>, c: nat)
    requires |deck| == DECK_SIZE && IsRound(Dealt(deck), round)
    ensures var t := After(Dealt(deck), round);
            PlayedIn(round, c) == PlayedBy(t, 0, c) + PlayedBy(t, 1, c) + PlayedBy(t, 2, c)
  {
    hide After, IsRound;
    PlayedAfter(Dealt(deck), round, c);
  }

  /** Whoever plays it, a card that is not a bottom card is played at most once. */
  lemma {:induction false} OwnCardOnce(draws: seq<nat>, round: seq<Play>, c: nat)
    requires |draws| == DECK_SIZE && IsRound(Dealt(Shuffled(Deck(), draws, 0)), round)
    requires c !in Shuffled(Deck(), draws, 0)[BOTTOM..]
    ensures PlayedIn(round, c) <= multiset(Deck())[c] <= 1
  {
    hide Shuffled, PlayedIn, PlayedBy, After, IsRound;
    var deck := Shuffled(Deck(), draws, 0);
    PlayedInDealt(deck, round, c);
    PlayedFromHand(deck, round, 0, c);
    PlayedFromHand(deck, round, 1, c);
    PlayedFromHand(deck, round, 2, c);
    DeckCount(draws, c);
    assert c !in multiset(deck[BOTTOM..]);
  }

  /** In a round no card is played twice exactly when no bottom card is. */
  lemma {:induction false} NoCardPlayedTwiceIff(draws: seq<nat>, round: seq<Play>)
    requires |draws| == DECK_SIZE && IsRound(Dealt(Shuffled(Deck(), draws, 0)), round)
    ensures (forall c :: PlayedIn(round, c) <= 1)
            <==> (forall c | c in Shuffled(Deck(), draws, 0)[BOTTOM..] :: PlayedIn(round, c) <= 1)
  {
    hide Shuffled, PlayedIn, IsRound;
    var bottom := Shuffled(Deck(), draws, 0)[BOTTOM..];
    if forall c | c in bottom :: PlayedIn(round, c) <= 1 {
      forall c ensures PlayedIn(round, c) <= 1 {
        if c !in bottom {
          OwnCardOnce(draws, round, c);
        }
      }
    }
  }

  lemma HoldsOne(t: Table, p: Play, c: nat)
    requires IsTable(t) && p.who < 3 && p.out == [c] && c in t.hands[p.who]
    ensures Held(t, p)
  {
    assert c in multiset(t.hands[p.who]);
  }

  /** Two players who both hold a card can both play it. */
  lemma BothPlay(t: Table, c: nat)
    requires IsTable(t) && c in t.hands[0] && c in t.hands[1]
    ensures IsRound(t, [Play(0, [c]), Play(1, [c])])
  {
    hide Held, WithoutAll;
    var first, second := Play(0, [c]), Play(1, [c]);
    HoldsOne(t, first, c);
    HoldsOne(Step(t, first), second, c);
    assert [first, second][1..] == [second] && [second][1..] == [];
    assert IsRound(Step(t, first), [second]);
  }

  lemma CountBothPlays(c: nat)
    ensures PlayedIn([Play(0, [c]), Play(1, [c])], c) == 2
  {
    var first, second := Play(0, [c]), Play(1, [c]);
    assert [first, second][1..] == [second] && [second][1..] == [];
    assert PlayedIn([second], c) == 1;
  }

  /** The first bottom card can be played twice, since every player is dealt it. */
  lemma BottomCardPlayedTwice(draws: seq<nat>)
    requires |draws| == DECK_SIZE
    ensures var deck := Shuffled(Deck(), draws, 0);
            var round := [Play(0, [deck[BOTTOM]]), Play(1, [deck[BOTTOM]])];
            IsRound(Dealt(deck), round) && PlayedIn(round, deck[BOTTOM]) == 2
  {
    hide Shuffled, IsRound, PlayedIn;
    var deck := Shuffled(Deck(), draws, 0);
    var c := deck[BOTTOM];
    assert Hand(deck, 0)[17] == Hand(deck, 17)[17] == c;
    BothPlay(Dealt(deck), c);
    CountBothPlays(c);
  }

  lemma {:induction false} NeverPlayed(t: Table, round: seq<Play>, i: nat, c: nat)
    requires IsRound(t, round) && i < 3
    requires forall p | p in round && p.who == i :: c !in p.out
    ensures PlayedBy(After(t, round), i, c) == PlayedBy(t, i, c)
    decreases |round|
  {
    hide PlayedBy, Step;
    if round != [] {
      assert round[0] in round && forall p | p in round[1..] :: p in round;
      NeverPlayed(Step(t, round[0]), round[1..], i, c);
      PlayedStep(t, round[0], i, c);
      assert round[0].who == i ==> c !in multiset(round[0].out);
    }
  }

  /** If only the landlord plays bottom cards, no card is played more often than the deck has it: once. */
  lemma {:induction false} NoCardPlayedTwice(draws: seq<nat>, round: seq<Play>, landlord: nat)
    requires |draws| == DECK_SIZE && landlord < 3
    requires IsRound(Dealt(Shuffled(Deck(), draws, 0)), round)
    requires forall p, c | p in round && p.who != landlord && c in p.out :: c !in Shuffled(Deck(), draws, 0)[BOTTOM..]
    ensures forall c :: PlayedIn(round, c) <= multiset(Deck())[c] <= 1
  {
    hide Shuffled, PlayedIn, PlayedBy, After, IsRound;
    var deck := Shuffled(Deck(), draws, 0);
    forall c ensures PlayedIn(round, c) <= multiset(Deck())[c] <= 1 {
      if c in deck[BOTTOM..] {
        PlayedInDealt(deck, round, c);
        DeckCount(draws, c);
        forall i | 0 <= i < 3
          ensures PlayedBy(After(Dealt(deck), round), i, c)
                  <= if i == landlord then multiset(Own(deck, i))[c] + multiset(deck[BOTTOM..])[c] else 0
        {
          if i == landlord {
            PlayedFromHand(deck, round, i, c);
          } else {
            NeverPlayed(Dealt(deck), round, i, c);
            NothingPlayed(deck, i, c);
          }
        }
      } else {
        OwnCardOnce(draws, round, c);
      }
    }
  }

  lemma NothingPlayed(deck: seq<nat>, i: nat, c: nat)
    requires |deck| == DECK_SIZE && i < 3
    ensures PlayedBy(Dealt(deck), i, c) == 0
  {
  }

  lemma {:induction false} DeckHasOneEach(c: nat)
    ensures multiset(Deck())[c] <= 1
  {
    DeckIsDistinct();
    DistinctCounts(Deck(), c);
  }

  lemma {:induction false} DistinctCounts(s: seq<nat>, c: nat)
    requires forall i, j :: 0 <= i < j < |s| ==> s[i] != s[j]
    ensures multiset(s)[c] <= 1
  {
    if s != [] {
      assert s == [s[0]] + s[1..];
      DistinctCounts(s[1..], c);
      if s[0] == c {
        assert c !in s[1..];
        assert c !in multiset(s[1..]);
      }
    }
  }
}
