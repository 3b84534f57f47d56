// The contact registry: the `players` Map<number, Player> of chrono-select.tsx
// and the updates the pointer handlers apply to it.
//
// A JavaScript Map iterates in insertion order, and the round engine relies on
// that order (Array.from(players.values()) feeds the shuffle, the race lineup
// and the order in which finishers are collected), so the registry keeps the
// insertion order next to the entries.

module Contacts {
  import opened Types

  datatype Contacts = Contacts(order: seq<int>, entries: map<int, Player>)

  const Empty: Contacts := Contacts([], map[])

  /** No element of s occurs twice. */
  predicate Distinct(s: seq<int>) {
    forall i, j :: 0 <= i < j < |s| ==> Apart(s, i, j)
  }

  /**
   * The positions i and j of s hold different elements. Distinct is stated
   * through it so that its quantifier fires only where a proof names a pair.
   */
  predicate Apart(s: seq<int>, i: int, j: int)
    requires 0 <= i < |s| && 0 <= j < |s|
  {
    s[i] != s[j]
  }

  lemma DistinctAt(s: seq<int>, i: int, j: int)
    requires Distinct(s) && 0 <= i < |s| && 0 <= j < |s| && i != j
    ensures s[i] != s[j]
  {
    if i < j { assert Apart(s, i, j); } else { assert Apart(s, j, i); }
  }

  /** The tail of a distinct sequence is distinct and misses the head. */
  lemma DistinctTail(s: seq<int>)
    requires Distinct(s) && s != []
    ensures Distinct(s[1..]) && s[0] !in s[1..]
  {
    var t := s[1..];
    forall i, j | 0 <= i < j < |t| ensures Apart(t, i, j) {
      assert Apart(s, i + 1, j + 1);
    }
    forall k | 0 <= k < |t| ensures t[k] != s[0] {
      assert Apart(s, 0, k + 1);
    }
  }

  /** Dropping the last element of a distinct sequence leaves it distinct and without that element. */
  lemma DistinctInit(s: seq<int>)
    requires Distinct(s) && s != []
    ensures Distinct(s[..|s| - 1]) && s[|s| - 1] !in s[..|s| - 1]
  {
    var t := s[..|s| - 1];
    forall i, j | 0 <= i < j < |t| ensures Apart(t, i, j) {
      assert Apart(s, i, j);
    }
    forall k | 0 <= k < |t| ensures t[k] != s[|s| - 1] {
      assert Apart(s, k, |s| - 1);
    }
  }

  /** Every slice of a distinct sequence is distinct. */
  lemma DistinctSlice(s: seq<int>, lo: nat, hi: nat)
    requires Distinct(s) && lo <= hi <= |s|
    ensures Distinct(s[lo..hi])
  {
    var t := s[lo..hi];
    forall i, j | 0 <= i < j < |t| ensures Apart(t, i, j) {
      assert Apart(s, lo + i, lo + j);
    }
  }

  /** Appending an element not yet present keeps a sequence distinct. */
  lemma DistinctAppend(s: seq<int>, k: int)
    requires Distinct(s) && k !in s
    ensures Distinct(s + [k])
  {
    var t := s + [k];
    forall i, j | 0 <= i < j < |t| ensures Apart(t, i, j) {
      if j < |s| { assert Apart(s, i, j); } else { assert t[i] == s[i]; }
    }
  }

  /** The order lists every key exactly once. */
  ghost predicate WellFormed(c: Contacts) {
    && Distinct(c.order)
    && (forall k :: k in c.entries ==> k in c.order)
    && (forall i :: 0 <= i < |c.order| ==> c.order[i] in c.entries)
  }

  /** The registry invariant: well formed, and every entry is stored under its own id. */
  ghost predicate Valid(c: Contacts) {
    && WellFormed(c)
    && (forall k :: k in c.entries ==> c.entries[k].id == k)
  }

  /** Map.prototype.size */
  function Size(c: Contacts): nat { |c.order| }

  /** Map.prototype.set: an existing key keeps its position, a new key goes last. */
  function Set(c: Contacts, k: int, p: Player): (r: Contacts)
    requires WellFormed(c)
    ensures WellFormed(r)
    ensures r.entries == c.entries[k := p]
    ensures r.order == if k in c.entries then c.order else c.order + [k]
  {
    if k in c.entries then Contacts(c.order, c.entries[k := p])
    else
      DistinctAppend(c.order, k);
      Contacts(c.order + [k], c.entries[k := p])
  }

  /** The sequence s without the element k. */
  function Without(s: seq<int>, k: int): (r: seq<int>)
    ensures forall x :: x in r <==> x in s && x != k
    ensures k !in s ==> r == s
  {
    if s == [] then []
    else if s[0] == k then Without(s[1..], k)
    else [s[0]] + Without(s[1..], k)
  }

  lemma {:induction false} WithoutDistinct(s: seq<int>, k: int)
    requires Distinct(s)
    ensures Distinct(Without(s, k))
  {
    if s != [] {
      DistinctTail(s);
      WithoutDistinct(s[1..], k);
      var t := Without(s[1..], k);
      if s[0] != k {
        assert s[0] !in t;
        var w := Without(s, k);
        assert w == [s[0]] + t;
        forall i, j | 0 <= i < j < |w| ensures Apart(w, i, j) {
          if i > 0 { assert Apart(t, i - 1, j - 1); } else { assert w[j] in t; }
        }
      }
    }
  }

  /** Map.prototype.delete */
  function Delete(c: Contacts, k: int): (r: Contacts)
    requires WellFormed(c)
    ensures WellFormed(r)
    ensures r.entries == c.entries - {k}
    ensures r.order == Without(c.order, k)
  {
    WithoutDistinct(c.order, k);
    var w := Without(c.order, k);
    assert forall i :: 0 <= i < |w| ==> w[i] in w;
    Contacts(w, c.entries - {k})
  }

  /** Array.from(map.values()) */
  function Values(c: Contacts): (vs: seq<Player>)
    requires WellFormed(c)
    ensures |vs| == |c.order|
    ensures forall i :: 0 <= i < |c.order| ==> vs[i] == c.entries[c.order[i]]
  {
    seq(|c.order|, i requires 0 <= i < |c.order| => c.entries[c.order[i]])
  }

  function Ids(ps: seq<Player>): (ids: seq<int>)
    ensures |ids| == |ps|
    ensures forall i :: 0 <= i < |ps| ==> ids[i] == ps[i].id
  {
    seq(|ps|, i requires 0 <= i < |ps| => ps[i].id)
  }

  function Hues(ps: seq<Player>): (hs: seq<real>)
    ensures |hs| == |ps|
    ensures forall i :: 0 <= i < |ps| ==> hs[i] == ps[i].hue
  {
    seq(|ps|, i requires 0 <= i < |ps| => ps[i].hue)
  }

  lemma {:induction false} DistinctCard(s: seq<int>)
    requires Distinct(s)
    ensures |set x | x in s| == |s|
  {
    if s != [] {
      var t := s[1..];
      DistinctTail(s);
      DistinctCard(t);
      assert (set x | x in s) == (set x | x in t) + {s[0]};
    }
  }

  /** The Map's size is its number of keys. */
  lemma SizeIsKeyCount(c: Contacts)
    requires WellFormed(c)
    ensures |c.entries| == Size(c)
  {
    DistinctCard(c.order);
    var inOrder := set x | x in c.order;
    forall x | x in inOrder ensures x in c.entries.Keys {
      var i :| 0 <= i < |c.order| && c.order[i] == x;
    }
    forall x | x in c.entries.Keys ensures x in inOrder {
      assert x in c.order;
    }
    assert c.entries.Keys == inOrder;
  }

  lemma IdsOfValues(c: Contacts)
    requires Valid(c)
    ensures Ids(Values(c)) == c.order
  {
    var ids := Ids(Values(c));
    assert |ids| == |c.order|;
    assert forall i :: 0 <= i < |ids| ==> ids[i] == c.order[i];
  }

  /** The position of x in s. */
  function IndexOf(s: seq<int>, x: int): (i: nat)
    requires x in s
    ensures i < |s| && s[i] == x
  {
    if s[0] == x then 0 else 1 + IndexOf(s[1..], x)
  }

  lemma {:induction false} IndexOfDistinct(s: seq<int>, i: nat)
    requires Distinct(s) && i < |s|
    ensures IndexOf(s, s[i]) == i
  {
    if i > 0 {
      DistinctAt(s, 0, i);
      DistinctTail(s);
      IndexOfDistinct(s[1..], i - 1);
    }
  }

  /**
   * The player-creating updater of handlePointerDown (and of the delayed
   * creation in race mode): a full registry is returned as it is, otherwise
   * the key id is set to a fresh player record.
   */
  function AddContact(c: Contacts, id: int, x: real, y: real, hue: real, saturation: real, phase: real): (r: Contacts)
    requires Valid(c)
    ensures Valid(r)
    ensures Size(c) >= MaxTouches ==> r == c
    ensures Size(c) < MaxTouches ==>
      && r.entries.Keys == c.entries.Keys + {id}
      && r.entries[id] == NewPlayer(id, x, y, hue, saturation, phase)
      && (forall k :: k in c.entries && k != id ==> r.entries[k] == c.entries[k])
  {
    if Size(c) >= MaxTouches then c
    else Set(c, id, NewPlayer(id, x, y, hue, saturation, phase))
  }

  /** The updater of handlePointerMove: only x and y of an existing entry change. */
  function MoveContact(c: Contacts, id: int, x: real, y: real): (r: Contacts)
    requires Valid(c)
    ensures Valid(r)
    ensures r.order == c.order && r.entries.Keys == c.entries.Keys
    ensures id !in c.entries ==> r == c
    ensures id in c.entries ==> r.entries[id] == c.entries[id].(x := x, y := y)
    ensures forall k :: k in c.entries && k != id ==> r.entries[k] == c.entries[k]
  {
    if id in c.entries then Set(c, id, c.entries[id].(x := x, y := y)) else c
  }

  /** The updater of handlePointerUp: the entry id is deleted and nothing else changes. */
  function RemoveContact(c: Contacts, id: int): (r: Contacts)
    requires Valid(c)
    ensures Valid(r)
    ensures r.entries.Keys == c.entries.Keys - {id}
    ensures forall k :: k in r.entries ==> r.entries[k] == c.entries[k]
    ensures Size(r) == if id in c.entries then Size(c) - 1 else Size(c)
  {
    SizeIsKeyCount(c);
    var r := Delete(c, id);
    SizeIsKeyCount(r);
    assert id in c.entries ==> c.entries.Keys - {id} + {id} == c.entries.Keys;
    r
  }

  /** Removing a contact that was just added restores the registry exactly. */
  lemma {:induction false} RemoveUndoesAdd(c: Contacts, id: int, x: real, y: real, hue: real, saturation: real, phase: real)
    requires Valid(c) && id !in c.entries && Size(c) < MaxTouches
    ensures RemoveContact(AddContact(c, id, x, y, hue, saturation, phase), id) == c
  {
    var r := AddContact(c, id, x, y, hue, saturation, phase);
    assert r.order == c.order + [id];
    WithoutAppended(c.order, id);
    assert r.entries - {id} == c.entries;
  }

  lemma {:induction false} WithoutAppended(s: seq<int>, k: int)
    requires k !in s
    ensures Without(s + [k], k) == s
  {
    if s != [] {
      assert (s + [k])[1..] == s[1..] + [k];
      WithoutAppended(s[1..], k);
    }
  }
}
