/**
 One side of a book as a value: price levels in ascending key order, best level last
 (include/itch/order_book.hpp:40-94).
 */
module Levels {
  import opened Machine

  datatype Level = Level(key: u32, qty: u64, orders: u32)

  datatype Reduced = Done | TopChanged | MissingLevel

  ghost predicate Sorted(s: seq<Level>) {
    forall i, j :: 0 <= i < j < |s| ==> s[i].key < s[j].key
  }

  /** The first level whose key is not below `key`. */
  function Find(s: seq<Level>, key: u32): (p: nat)
    ensures p <= |s|
    ensures forall i :: p <= i < |s| ==> s[i].key >= key
    ensures p > 0 ==> s[p - 1].key < key
  {
    if s == [] || s[|s| - 1].key < key then |s| else Find(s[..|s| - 1], key)
  }

  predicate Has(s: seq<Level>, key: u32) {
    var p := Find(s, key);
    p < |s| && s[p].key == key
  }

  function Insert(s: seq<Level>, p: nat, l: Level): seq<Level>
    requires p <= |s|
  {
    s[..p] + [l] + s[p..]
  }

  function Remove(s: seq<Level>, p: nat): seq<Level>
    requires p < |s|
  {
    s[..p] + s[p + 1..]
  }

  lemma InsertPlace(s: seq<Level>, p: nat, l: Level, i: nat)
    requires p <= |s| && i <= |s|
    ensures |Insert(s, p, l)| == |s| + 1
    ensures Insert(s, p, l)[i] == if i < p then s[i] else if i == p then l else s[i - 1]
  {
  }

  lemma RemovePlace(s: seq<Level>, p: nat, i: nat)
    requires p < |s| && i < |s| - 1
    ensures |Remove(s, p)| == |s| - 1
    ensures Remove(s, p)[i] == if i < p then s[i] else s[i + 1]
  {
  }

  /** LevelSide::add, with the fixed-width counters of the source. */
  function Add(s: seq<Level>, key: u32, shares: u32): seq<Level> {
    var p := Find(s, key);
    if Has(s, key)
    then s[p := Level(key, (s[p].qty + shares) % TWO_64, (s[p].orders + 1) % TWO_32)]
    else Insert(s, p, Level(key, shares, 1))
  }

  /** The flag add returns. */
  predicate AddTouchesTop(s: seq<Level>, key: u32) {
    Find(s, key) == if Has(s, key) then |s| - 1 else |s|
  }

  /** The level at `p` after losing `shares`, and one order when `gone`. */
  function Less(l: Level, shares: u32, gone: bool): Level {
    Level(l.key, (l.qty - shares) % TWO_64, (l.orders - if gone then 1 else 0) % TWO_32)
  }

  /** LevelSide::reduce. */
  function Reduce(s: seq<Level>, key: u32, shares: u32, gone: bool): seq<Level> {
    if !Has(s, key) then s else
      var p := Find(s, key);
      var l := Less(s[p], shares, gone);
      if l.orders == 0 then Remove(s, p) else s[p := l]
  }

  function ReduceResult(s: seq<Level>, key: u32): Reduced {
    if !Has(s, key) then MissingLevel
    else if Find(s, key) == |s| - 1 then TopChanged else Done
  }

  /** The debug assertion of reduce: a level's last order takes its last share. */
  predicate Drains(s: seq<Level>, key: u32, shares: u32, gone: bool) {
    Has(s, key) ==> var l := Less(s[Find(s, key)], shares, gone); l.orders == 0 ==> l.qty == 0
  }

  // ---------- the side as a finite map ----------

  ghost predicate Keyed(s: seq<Level>, key: u32) {
    exists i :: 0 <= i < |s| && s[i].key == key
  }

  /** In a sorted side the search finds a key exactly when some level has it, and it finds that level. */
  lemma FindExact(s: seq<Level>, key: u32)
    requires Sorted(s)
    ensures Has(s, key) <==> Keyed(s, key)
    ensures forall i :: 0 <= i < |s| ==> (s[i].key == key <==> Has(s, key) && i == Find(s, key))
    ensures forall i :: 0 <= i < Find(s, key) ==> s[i].key < key
  {
  }

  /** What a side says about one key. */
  function At(s: seq<Level>, key: u32): Option<Level> {
    if Has(s, key) then Some(s[Find(s, key)]) else None
  }

  lemma AtLevel(s: seq<Level>, i: nat)
    requires Sorted(s) && i < |s|
    ensures At(s, s[i].key) == Some(s[i])
  {
    FindExact(s, s[i].key);
  }

  /** A sorted side is determined by what it says about the keys. */
  lemma {:induction false} SideIsItsMap(s: seq<Level>, t: seq<Level>)
    requires Sorted(s) && Sorted(t)
    requires forall key :: At(s, key) == At(t, key)
    ensures s == t
  {
    if s != [] && t != [] {
      var m, n := |s| - 1, |t| - 1;
      AtLevel(s, m);
      AtLevel(t, n);
      FindExact(s, t[n].key);
      FindExact(t, s[m].key);
      assert s[m] == t[n];
      forall key ensures At(s[..m], key) == At(t[..n], key) {
        AtPrefix(s, key);
        AtPrefix(t, key);
      }
      SideIsItsMap(s[..m], t[..n]);
    } else if s != [] {
      AtLevel(s, 0);
    } else if t != [] {
      AtLevel(t, 0);
    }
  }

  lemma AtPrefix(s: seq<Level>, key: u32)
    requires Sorted(s) && s != []
    ensures At(s[..|s| - 1], key) == if key >= s[|s| - 1].key then None else At(s, key)
  {
    FindExact(s, key);
    FindExact(s[..|s| - 1], key);
  }

  lemma AtAbsent(s: seq<Level>, key: u32)
    requires Sorted(s) && !Keyed(s, key)
    ensures At(s, key) == None
  {
    FindExact(s, key);
  }

  lemma UpdateAt(s: seq<Level>, p: nat, l: Level, k: u32)
    requires Sorted(s) && p < |s| && l.key == s[p].key
    ensures Sorted(s[p := l])
    ensures At(s[p := l], k) == if k == l.key then Some(l) else At(s, k)
  {
    var t := s[p := l];
    FindExact(s, k);
    if Has(s, k) {
      AtLevel(t, Find(s, k));
    } else {
      AtAbsent(t, k);
    }
  }

  lemma InsertSorted(s: seq<Level>, l: Level)
    requires Sorted(s) && !Has(s, l.key)
    ensures Sorted(Insert(s, Find(s, l.key), l))
  {
    hide Find;
    FindExact(s, l.key);
  }

  lemma InsertAt(s: seq<Level>, l: Level, k: u32)
    requires Sorted(s) && !Has(s, l.key)
    ensures Sorted(Insert(s, Find(s, l.key), l))
    ensures At(Insert(s, Find(s, l.key), l), k) == if k == l.key then Some(l) else At(s, k)
  {
    hide Sorted, Find;
    var p := Find(s, l.key);
    var t := Insert(s, p, l);
    InsertSorted(s, l);
    FindExact(s, k);
    if k == l.key {
      AtLevel(t, p);
    } else if Has(s, k) {
      var i := Find(s, k);
      AtLevel(t, if i < p then i else i + 1);
    } else {
      assert forall i :: 0 <= i < |t| ==> t[i] == if i < p then s[i] else if i == p then l else s[i - 1];
      AtAbsent(t, k);
    }
  }

  lemma RemoveAt(s: seq<Level>, p: nat, k: u32)
    requires Sorted(s) && p < |s|
    ensures Sorted(Remove(s, p))
    ensures At(Remove(s, p), k) == if k == s[p].key then None else At(s, k)
  {
    var t := Remove(s, p);
    FindExact(s, k);
    assert Sorted(t);
    if k != s[p].key && Has(s, k) {
      var i := Find(s, k);
      AtLevel(t, if i < p then i else i - 1);
    } else {
      AtAbsent(t, k);
    }
  }

  /** add changes the entry of its key only. */
  lemma AddAt(s: seq<Level>, key: u32, shares: u32, k: u32)
    requires Sorted(s)
    ensures Sorted(Add(s, key, shares))
    ensures At(Add(s, key, shares), k) ==
      if k != key then At(s, k)
      else match At(s, key)
        case Some(l) => Some(Level(key, (l.qty + shares) % TWO_64, (l.orders + 1) % TWO_32))
        case None => Some(Level(key, shares, 1))
  {
    hide Sorted, Find, Insert;
    if Has(s, key) {
      var l := s[Find(s, key)];
      UpdateAt(s, Find(s, key), Level(key, (l.qty + shares) % TWO_64, (l.orders + 1) % TWO_32), k);
    } else {
      InsertAt(s, Level(key, shares, 1), k);
    }
  }

  /** reduce changes the entry of its key only, and removes it with the last order. */
  lemma ReduceAt(s: seq<Level>, key: u32, shares: u32, gone: bool, k: u32)
    requires Sorted(s)
    ensures Sorted(Reduce(s, key, shares, gone))
    ensures At(Reduce(s, key, shares, gone), k) ==
      if k != key then At(s, k)
      else match At(s, key)
        case Some(l) => (var m := Less(l, shares, gone); if m.orders == 0 then None else Some(m))
        case None => None
  {
    hide Sorted, Find, Remove;
    if Has(s, key) {
      var p := Find(s, key);
      UpdateAt(s, p, Less(s[p], shares, gone), k);
      RemoveAt(s, p, k);
    }
  }
}
