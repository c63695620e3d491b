/** The doubly linked deck of data-structures/insertion_sort.c, kept sorted by insertion. */
module CardDeck {
  import opened Machine

  /** What a card shows. */
  datatype Face = Face(name: string, cost: uint16)

  // ---- insertion on sequences ----

  /** The index of the first card that is more expensive, or the length if there is none. */
  ghost function Position(s: seq<Face>, cost: uint16): (p: nat)
    ensures p <= |s|
    ensures forall i :: 0 <= i < p ==> s[i].cost <= cost
    ensures p < |s| ==> s[p].cost > cost
  {
    if s == [] || s[0].cost > cost then 0 else 1 + Position(s[1..], cost)
  }

  ghost function InsertAt<T>(s: seq<T>, p: nat, x: T): (t: seq<T>)
    requires p <= |s|
    ensures |t| == |s| + 1 && t[p] == x
    ensures forall i :: 0 <= i < p ==> t[i] == s[i]
    ensures forall i :: p < i < |t| ==> t[i] == s[i - 1]
  {
    s[..p] + [x] + s[p..]
  }

  ghost function Insert(s: seq<Face>, f: Face): seq<Face>
  {
    InsertAt(s, Position(s, f.cost), f)
  }

  /** The deck after adding all of `fs`, one by one, to `s`. */
  ghost function InsertAll(s: seq<Face>, fs: seq<Face>): seq<Face>
    decreases |fs|
  {
    if fs == [] then s else InsertAll(Insert(s, fs[0]), fs[1..])
  }

  ghost predicate Sorted(s: seq<Face>)
  {
    forall i, j :: 0 <= i < j < |s| ==> s[i].cost <= s[j].cost
  }

  /** The cards of one cost, in their order. */
  ghost function OfCost(s: seq<Face>, cost: uint16): seq<Face>
  {
    if s == [] then [] else (if s[0].cost == cost then [s[0]] else []) + OfCost(s[1..], cost)
  }

  lemma ConcatAssociates(a: seq<Face>, b: seq<Face>, c: seq<Face>)
    ensures (a + b) + c == a + (b + c)
  {
  }

  lemma {:induction false} OfCostConcat(s: seq<Face>, t: seq<Face>, cost: uint16)
    ensures OfCost(s + t, cost) == OfCost(s, cost) + OfCost(t, cost)
  {
    if s == [] {
      assert s + t == t;
    } else {
      assert (s + t)[1..] == s[1..] + t;
      OfCostConcat(s[1..], t, cost);
      ConcatAssociates(if s[0].cost == cost then [s[0]] else [], OfCost(s[1..], cost), OfCost(t, cost));
    }
  }

  /** With the previous lemma: the cards of one cost are all of them, in their order, and no others. */
  lemma OfCostOne(f: Face, cost: uint16)
    ensures OfCost([f], cost) == (if f.cost == cost then [f] else []) && OfCost([], cost) == []
  {
    assert [f][1..] == [];
  }

  lemma {:induction false} NoneOfCost(s: seq<Face>, cost: uint16)
    requires forall i :: 0 <= i < |s| ==> s[i].cost != cost
    ensures OfCost(s, cost) == []
  {
    if s == [] {
    } else {
      NoneOfCost(s[1..], cost);
    }
  }

  /** In a sorted deck the new card comes after all cards of equal or lower cost and before all others. */
  lemma InsertKeepsSorted(s: seq<Face>, f: Face)
    requires Sorted(s)
    ensures var p := Position(s, f.cost);
      (forall i :: 0 <= i < p ==> s[i].cost <= f.cost) && (forall i :: p <= i < |s| ==> s[i].cost > f.cost)
    ensures Sorted(Insert(s, f))
  {
    var p := Position(s, f.cost);
    forall i | p <= i < |s| ensures s[i].cost > f.cost {
      assert i > p ==> s[p].cost <= s[i].cost;
    }
    InsertAtSorted(s, p, f);
  }

  lemma InsertAtSorted(s: seq<Face>, p: nat, f: Face)
    requires Sorted(s) && p <= |s|
    requires (forall i :: 0 <= i < p ==> s[i].cost <= f.cost) && (forall i :: p <= i < |s| ==> s[i].cost > f.cost)
    ensures Sorted(InsertAt(s, p, f))
  {
    var t := InsertAt(s, p, f);
    forall i, j | 0 <= i < j < |t| ensures t[i].cost <= t[j].cost {
      var a, b := if i < p then i else i - 1, if j < p then j else j - 1;
      if i != p && j != p {
        assert t[i] == s[a] && t[j] == s[b];
      }
    }
  }

  /** Insertion puts the card last among those of its cost and leaves all other costs alone. */
  lemma InsertIsStable(s: seq<Face>, f: Face, cost: uint16)
    requires Sorted(s)
    ensures OfCost(Insert(s, f), cost) == OfCost(s, cost) + if f.cost == cost then [f] else []
  {
    var p := Position(s, f.cost);
    InsertKeepsSorted(s, f);
    OfCostInsertAt(s, p, f, cost);
    if f.cost == cost {
      NoneOfCost(s[p..], cost);
    }
  }

  lemma OfCostInsertAt(s: seq<Face>, p: nat, f: Face, cost: uint16)
    requires p <= |s|
    ensures OfCost(s, cost) == OfCost(s[..p], cost) + OfCost(s[p..], cost)
    ensures OfCost(InsertAt(s, p, f), cost) == OfCost(s[..p], cost) + (if f.cost == cost then [f] else []) + OfCost(s[p..], cost)
  {
    OfCostConcat(s[..p] + [f], s[p..], cost);
    OfCostConcat(s[..p], [f], cost);
    OfCostConcat(s[..p], s[p..], cost);
    assert s[..p] + s[p..] == s;
    assert [f][1..] == [];
  }

  lemma InsertBag(s: seq<Face>, f: Face)
    ensures multiset(Insert(s, f)) == multiset(s) + multiset{f}
  {
    var p := Position(s, f.cost);
    assert s[..p] + s[p..] == s;
  }

  /** Building a deck by insertion is a stable sort: sorted, and for every cost the same cards in the same order. */
  lemma {:induction false} InsertionSorts(s: seq<Face>, fs: seq<Face>)
    requires Sorted(s)
    ensures Sorted(InsertAll(s, fs))
    ensures forall i, j :: 0 <= i < j < |InsertAll(s, fs)| ==> InsertAll(s, fs)[i].cost <= InsertAll(s, fs)[j].cost
    ensures multiset(InsertAll(s, fs)) == multiset(s) + multiset(fs)
    decreases |fs|
  {
    if fs == [] {
    } else {
      InsertKeepsSorted(s, fs[0]);
      InsertionSorts(Insert(s, fs[0]), fs[1..]);
      InsertBag(s, fs[0]);
      assert fs == [fs[0]] + fs[1..];
    }
  }

  lemma {:induction false} InsertionIsStable(s: seq<Face>, fs: seq<Face>, cost: uint16)
    requires Sorted(s)
    ensures OfCost(InsertAll(s, fs), cost) == OfCost(s, cost) + OfCost(fs, cost)
    decreases |fs|
  {
    if fs != [] {
      InsertKeepsSorted(s, fs[0]);
      InsertIsStable(s, fs[0], cost);
      InsertionIsStable(Insert(s, fs[0]), fs[1..], cost);
      ConcatAssociates(OfCost(s, cost), if fs[0].cost == cost then [fs[0]] else [], OfCost(fs[1..], cost));
    } else {
      assert OfCost(s, cost) + [] == OfCost(s, cost);
    }
  }

  /** The deck of the program after adding any cards one by one: stably sorted. */
  lemma BuildDeck(fs: seq<Face>, cost: uint16)
    ensures var deck := InsertAll([Face("Almalexia", 10)], fs);
      && (forall i, j :: 0 <= i < j < |deck| ==> deck[i].cost <= deck[j].cost)
      && multiset(deck) == multiset([Face("Almalexia", 10)] + fs)
      && OfCost(deck, cost) == OfCost([Face("Almalexia", 10)] + fs, cost)
  {
    var first := [Face("Almalexia", 10)];
    InsertionSorts(first, fs);
    InsertionIsStable(first, fs, cost);
    OfCostConcat(first, fs, cost);
  }

  // ---- the code ----

  const MAX_LENGTH: nat := 24

  class Card {
    const name: string
    const cost: uint16
    var next: Card?
    var prev: Card?

    constructor (name: string, cost: uint16)
      ensures this.name == name && this.cost == cost && next == null && prev == null
    {
      this.name, this.cost := name, cost;
      next, prev := null, null;
    }
  }

  ghost function Faces(cards: seq<Card>): (s: seq<Face>)
    ensures |s| == |cards|
  {
    seq(|cards|, i requires 0 <= i < |cards| => Face(cards[i].name, cards[i].cost))
  }

  lemma InsertFaces(cards: seq<Card>, p: nat, card: Card)
    requires p <= |cards|
    ensures Faces(InsertAt(cards, p, card)) == InsertAt(Faces(cards), p, Face(card.name, card.cost))
  {
  }

  class Deck {
    var first: Card?
    ghost var cards: seq<Card>

    /** `next` and `prev` run along `cards` in opposite directions, and no card occurs twice. */
    ghost predicate Valid()
      reads this, cards
    {
      && (forall i, j :: 0 <= i < j < |cards| ==> cards[i] != cards[j])
      && first == (if cards == [] then null else cards[0])
      && (forall i {:trigger cards[i].next} :: 0 <= i < |cards| ==>
            cards[i].next == if i == |cards| - 1 then null else cards[i + 1])
      && (forall i {:trigger cards[i].prev} :: 0 <= i < |cards| ==>
            cards[i].prev == if i == 0 then null else cards[i - 1])
    }

    /** The deck with its default card. */
    constructor ()
      ensures Valid() && Faces(cards) == [Face("Almalexia", 10)]
    {
      var card := new Card("Almalexia", 10);
      first, cards := card, [card];
    }

    /**
     Walks to the first more expensive card and wires a new card in front of it; `false` stands
     for the exit on a name that is too long. The deck need not be sorted.
     */
    method AddCard(name: string, cost: uint16) returns (ok: bool)
      requires Valid()
      modifies this, cards
      ensures Valid()
      ensures ok <==> |name| <= 23
      ensures !ok ==> cards == old(cards)
      ensures ok ==> Faces(cards) == Insert(old(Faces(cards)), Face(name, cost))
      ensures ok ==> var p := Position(old(Faces(cards)), cost);
                     fresh(cards[p]) && cards == InsertAt(old(cards), p, cards[p])
    {
      var strLength := |name| + 1;
      if strLength > MAX_LENGTH {
        return false;
      }
      var newCard := new Card(name, cost);
      var prevNode, current, p := FindPlace(cost);
      InsertFaces(cards, p, newCard);
      Wire(newCard, prevNode, current, p);
      return true;
    }

    /** The search phase: the two neighbours of the place for a card of the given cost. */
    method FindPlace(cost: uint16) returns (prevNode: Card?, current: Card?, ghost p: nat)
      requires Valid()
      ensures p == Position(Faces(cards), cost)
      ensures var q := Position(Faces(cards), cost);
              && prevNode == (if q == 0 then null else cards[q - 1])
              && current == (if q == |cards| then null else cards[q])
    {
      prevNode, current, p := null, first, 0;
      ghost var s := Faces(cards);
      while current != null
        invariant 0 <= p <= |cards|
        invariant current == if p == |cards| then null else cards[p]
        invariant prevNode == if p == 0 then null else cards[p - 1]
        invariant forall i :: 0 <= i < p ==> s[i].cost <= cost
        decreases |cards| - p
      {
        if current.cost > cost {
          break;
        }
        prevNode := current;
        current := current.next;
        p := p + 1;
      }
      PositionIs(s, cost, p);
    }

    /** The three wiring cases: in front of the first card, between two cards, or behind the last. */
    method Wire(newCard: Card, prevNode: Card?, current: Card?, ghost p: nat)
      requires Valid() && p <= |cards| && newCard !in cards && newCard.next == null && newCard.prev == null
      requires prevNode == if p == 0 then null else cards[p - 1]
      requires current == if p == |cards| then null else cards[p]
      modifies this, cards, newCard
      ensures Valid() && cards == InsertAt(old(cards), p, newCard)
    {
      if prevNode == null {
        newCard.next := first;
        if first != null {
          first.prev := newCard;
        }
        first := newCard;
      } else if current != null {
        newCard.next := current;
        newCard.prev := prevNode;
        prevNode.next := newCard;
        current.prev := newCard;
      } else {
        newCard.prev := prevNode;
        prevNode.next := newCard;
      }
      cards := InsertAt(cards, p, newCard);
    }
  }

  lemma PositionIs(s: seq<Face>, cost: uint16, p: nat)
    requires p <= |s| && (forall i :: 0 <= i < p ==> s[i].cost <= cost) && (p < |s| ==> s[p].cost > cost)
    ensures Position(s, cost) == p
  {
    assert !(Position(s, cost) < p);
  }
}
