/** `sale_items.sort(key=itemgetter('game_name'))`: a stable sort of the
    held records by name under Python's string order.  Python raises
    `TypeError` as soon as the sort compares a `None` name, which it does
    whenever the list has two or more records and one of them has no name;
    a list of one record is never compared. */
module Ordering {
  import opened Results
  import opened Records
  import opened SeqFacts

  /** Python's `a <= b` on `str`: code point by code point, a proper prefix
      before the longer string. */
  predicate LexLe(a: string, b: string): (r: bool)
    ensures a <= b ==> r
  {
    a == [] || (b != [] && (a[0] < b[0] || (a[0] == b[0] && LexLe(a[1..], b[1..]))))
  }

  predicate AllNamed(s: seq<SaleItem>)
  {
    forall i :: 0 <= i < |s| ==> s[i].name.Some?
  }

  /** Non-decreasing by name; every compared record has a name. */
  predicate SortedByName(s: seq<SaleItem>)
  {
    forall i, j :: 0 <= i < j < |s| ==>
      s[i].name.Some? && s[j].name.Some? && LexLe(s[i].name.value, s[j].name.value)
  }

  /** The records `s` holds under the name `k`, in the order `s` holds them. */
  function WithName(s: seq<SaleItem>, k: string): seq<SaleItem>
  {
    if s == [] then []
    else (if s[0].name == Some(k) then [s[0]] else []) + WithName(s[1..], k)
  }

  /** Put `x` into the sorted `t` after every record whose name is not
      greater than its own. */
  function Insert(x: SaleItem, t: seq<SaleItem>): (r: seq<SaleItem>)
    requires x.name.Some? && AllNamed(t)
    ensures multiset(r) == multiset(t) + multiset{x}
    ensures AllNamed(r)
  {
    if t == [] then [x]
    else if LexLe(t[0].name.value, x.name.value) then
      var rest := Insert(x, t[1..]);
      assert t == [t[0]] + t[1..];
      assert forall i :: 1 <= i < |rest| + 1 ==> ([t[0]] + rest)[i] == rest[i - 1];
      [t[0]] + rest
    else
      assert forall i :: 1 <= i < |t| + 1 ==> ([x] + t)[i] == t[i - 1];
      [x] + t
  }

  /** Stable sort by name: each record is placed after the earlier records
      whose names are not greater. */
  function SortByName(s: seq<SaleItem>): (r: seq<SaleItem>)
    requires AllNamed(s)
    ensures multiset(r) == multiset(s)
    ensures AllNamed(r)
  {
    if s == [] then []
    else
      assert s == s[..|s| - 1] + [s[|s| - 1]];
      Insert(s[|s| - 1], SortByName(s[..|s| - 1]))
  }

  // ---------------------------------------------------------------------
  // The string order is total and transitive

  lemma {:induction false} LexLeTotal(a: string, b: string)
    ensures LexLe(a, b) || LexLe(b, a)
  {
    if a != [] && b != [] && a[0] == b[0] {
      LexLeTotal(a[1..], b[1..]);
    }
  }

  lemma {:induction false} LexLeReflexive(a: string)
    ensures LexLe(a, a)
  {
    if a != [] {
      LexLeReflexive(a[1..]);
    }
  }

  /** Two names that are each not greater than the other are equal. */
  lemma {:induction false} LexLeAntisymmetric(a: string, b: string)
    requires LexLe(a, b) && LexLe(b, a)
    ensures a == b
  {
    if a != [] {
      LexLeAntisymmetric(a[1..], b[1..]);
      HeadTail(a);
      HeadTail(b);
    }
  }

  lemma {:induction false} LexLeTransitive(a: string, b: string, c: string)
    requires LexLe(a, b) && LexLe(b, c)
    ensures LexLe(a, c)
  {
    if a != [] && a[0] == b[0] && b[0] == c[0] {
      LexLeTransitive(a[1..], b[1..], c[1..]);
    }
  }

  // ---------------------------------------------------------------------
  // Insert

  /** The tail of a sorted list is sorted, and its head is not greater than
      any record of the tail. */
  lemma SortedTail(t: seq<SaleItem>)
    requires t != [] && AllNamed(t) && SortedByName(t)
    ensures AllNamed(t[1..]) && SortedByName(t[1..])
    ensures forall j :: 0 <= j < |t| - 1 ==> LexLe(t[0].name.value, t[1..][j].name.value)
  {
  }

  /** A named record not greater than any record of a sorted list can go in
      front of it. */
  lemma SortedCons(y: SaleItem, s: seq<SaleItem>)
    requires y.name.Some? && AllNamed(s) && SortedByName(s)
    requires forall j :: 0 <= j < |s| ==> LexLe(y.name.value, s[j].name.value)
    ensures SortedByName([y] + s)
  {
  }

  lemma {:induction false} InsertSorted(x: SaleItem, t: seq<SaleItem>)
    requires x.name.Some? && AllNamed(t) && SortedByName(t)
    ensures SortedByName(Insert(x, t))
  {
    if t != [] {
      var y, tail := t[0], t[1..];
      SortedTail(t);
      if LexLe(y.name.value, x.name.value) {
        var rest := Insert(x, tail);
        InsertSorted(x, tail);
        assert Insert(x, t) == [y] + rest;
        forall j | 0 <= j < |rest| ensures LexLe(y.name.value, rest[j].name.value) {
          assert rest[j] in multiset(rest);
          if rest[j] != x {
            assert rest[j] in multiset(tail);
            var m :| 0 <= m < |tail| && tail[m] == rest[j];
          }
        }
        SortedCons(y, rest);
      } else {
        LexLeTotal(y.name.value, x.name.value);
        forall j | 0 <= j < |t| ensures LexLe(x.name.value, t[j].name.value) {
          if j > 0 {
            assert t[j] == tail[j - 1];
            LexLeTransitive(x.name.value, y.name.value, t[j].name.value);
          }
        }
        assert Insert(x, t) == [x] + t;
        SortedCons(x, t);
      }
    }
  }

  lemma {:induction false} WithNameAppend(a: seq<SaleItem>, b: seq<SaleItem>, k: string)
    ensures WithName(a + b, k) == WithName(a, k) + WithName(b, k)
  {
    if a == [] {
      assert a + b == b;
    } else {
      var head := if a[0].name == Some(k) then [a[0]] else [];
      WithNameAppend(a[1..], b, k);
      assert (a + b)[0] == a[0];
      DropAppend(a, b, 1);
      assert WithName(a + b, k) == head + WithName(a[1..] + b, k);
      Assoc(head, WithName(a[1..], k), WithName(b, k));
    }
  }

  lemma {:induction false} WithNameNone(s: seq<SaleItem>, k: string)
    requires forall i :: 0 <= i < |s| ==> s[i].name != Some(k)
    ensures WithName(s, k) == []
  {
    if s != [] {
      WithNameNone(s[1..], k);
    }
  }

  lemma WithNameOne(x: SaleItem, k: string)
    ensures WithName([x], k) == if x.name == Some(k) then [x] else []
  {
  }

  /** Inserting `x` into a sorted list puts it after every record of the
      same name: the records of each name keep their order of arrival. */
  lemma {:induction false} InsertStable(x: SaleItem, t: seq<SaleItem>, k: string)
    requires x.name.Some? && AllNamed(t) && SortedByName(t)
    ensures WithName(Insert(x, t), k) == WithName(t, k) + WithName([x], k)
  {
    if t == [] {
      WithNameOne(x, k);
      assert WithName(t, k) == [];
    } else if LexLe(t[0].name.value, x.name.value) {
      SortedTail(t);
      InsertStable(x, t[1..], k);
      InsertStableBehind(x, t, k);
    } else {
      InsertStableFront(x, t, k);
    }
  }

  /** The step of `InsertStable` where `x` goes behind the head of `t`. */
  lemma InsertStableBehind(x: SaleItem, t: seq<SaleItem>, k: string)
    requires x.name.Some? && AllNamed(t) && t != [] && LexLe(t[0].name.value, x.name.value)
    requires AllNamed(t[1..])
    requires WithName(Insert(x, t[1..]), k) == WithName(t[1..], k) + WithName([x], k)
    ensures WithName(Insert(x, t), k) == WithName(t, k) + WithName([x], k)
  {
    var head, tail := [t[0]], t[1..];
    assert Insert(x, t) == head + Insert(x, tail);
    WithNameAppend(head, Insert(x, tail), k);
    HeadTail(t);
    WithNameAppend(head, tail, k);
    Assoc(WithName(head, k), WithName(tail, k), WithName([x], k));
  }

  /** The step of `InsertStable` where `x` goes in front of `t`: no record
      of `t` has the name of `x`. */
  lemma InsertStableFront(x: SaleItem, t: seq<SaleItem>, k: string)
    requires x.name.Some? && AllNamed(t) && SortedByName(t)
    requires t != [] && !LexLe(t[0].name.value, x.name.value)
    ensures WithName(Insert(x, t), k) == WithName(t, k) + WithName([x], k)
  {
    WithNameOne(x, k);
    assert Insert(x, t) == [x] + t;
    WithNameAppend([x], t, k);
    if x.name == Some(k) {
      forall i | 0 <= i < |t| ensures t[i].name != Some(k) {
        if i == 0 {
          LexLeReflexive(t[0].name.value);
        }
        assert LexLe(t[0].name.value, t[i].name.value);
      }
      WithNameNone(t, k);
      assert WithName([x], k) + [] == [] + WithName([x], k);
    } else {
      assert [] + WithName(t, k) == WithName(t, k) + [];
    }
  }

  // ---------------------------------------------------------------------
  // SortByName

  /** The stable sort is sorted, a permutation of its input, and keeps the
      records of each name in input order. */
  lemma {:induction false} SortByNameCorrect(s: seq<SaleItem>)
    requires AllNamed(s)
    ensures SortedByName(SortByName(s))
    ensures multiset(SortByName(s)) == multiset(s)
    ensures forall k :: WithName(SortByName(s), k) == WithName(s, k)
  {
    if s != [] {
      var init, last := s[..|s| - 1], s[|s| - 1];
      assert s == init + [last];
      SortByNameCorrect(init);
      var sorted := SortByName(init);
      InsertSorted(last, sorted);
      forall k ensures WithName(SortByName(s), k) == WithName(s, k) {
        InsertStable(last, sorted, k);
        WithNameAppend(init, [last], k);
      }
    }
  }

  /** The sort step of `parse_store`: `TypeError` when two or more records
      are compared and one has no name, otherwise the stably sorted list. */
  function SortItems(items: seq<SaleItem>): (r: Result<seq<SaleItem>, Failure>)
    ensures r.Ok? <==> |items| <= 1 || AllNamed(items)
    ensures r.Err? ==> r.error == SortTypeError
    ensures r.Ok? ==> SortedByName(r.value)
    ensures r.Ok? ==> multiset(r.value) == multiset(items)
    ensures r.Ok? ==> forall k :: WithName(r.value, k) == WithName(items, k)
  {
    if |items| <= 1 then Ok(items)
    else if AllNamed(items) then
      SortByNameCorrect(items);
      Ok(SortByName(items))
    else Err(SortTypeError)
  }
}
