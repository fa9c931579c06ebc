/** Vocabulary shared by every component: options, results, event histories, the byte order of
    strings, and the sorting the adapter asks its standard library for. */
module Common {

  datatype Option<+T> = None | Some(value: T)

  datatype Result<+T, +E> = Ok(value: T) | Err(error: E)

  function Get<K, V>(m: map<K, V>, key: K): Option<V> {
    if key in m then Some(m[key]) else None
  }

  /** What happened to a component so far. The newest event is outermost, so a property of every run
      is a structural induction. */
  datatype History<+E> = Start | Then(past: History<E>, event: E)

  /** One history is a proper beginning of another. */
  ghost predicate Earlier<E>(a: History<E>, b: History<E>) {
    b.Then? && (a == b.past || Earlier(a, b.past))
  }

  /** Concatenation, in order. */
  function Flatten<T>(parts: seq<seq<T>>): seq<T> {
    if parts == [] then [] else Flatten(parts[..|parts| - 1]) + parts[|parts| - 1]
  }

  lemma FlattenSnoc<T>(parts: seq<seq<T>>, last: seq<T>)
    ensures Flatten(parts + [last]) == Flatten(parts) + last
  {
    assert (parts + [last])[..|parts|] == parts;
  }

  lemma {:induction false} FlattenConcat<T>(a: seq<seq<T>>, b: seq<seq<T>>)
    ensures Flatten(a + b) == Flatten(a) + Flatten(b)
  {
    if b == [] {
      assert a + b == a;
    } else {
      var front, last := b[..|b| - 1], b[|b| - 1];
      FlattenConcat(a, front);
      assert a + b == (a + front) + [last];
      FlattenSnoc(a + front, last);
      assert Flatten(b) == Flatten(front) + last;
      assert Flatten(a) + Flatten(front) + last == Flatten(a) + (Flatten(front) + last);
    }
  }

  lemma TakeOut<T>(s: seq<T>, i: nat)
    requires i < |s|
    ensures multiset(s) == multiset(s[..i] + s[i + 1..]) + multiset{s[i]}
  {
    assert s == s[..i] + [s[i]] + s[i + 1..];
  }

  /** Two arrangements of the same elements, less one element each, are arrangements of the same. */
  lemma TakeOutOfBoth<T>(s: seq<T>, i: nat, t: seq<T>, j: nat)
    requires i < |s| && j < |t| && s[i] == t[j] && multiset(s) == multiset(t)
    ensures multiset(s[..i] + s[i + 1..]) == multiset(t[..j] + t[j + 1..])
  {
    TakeOut(s, i);
    TakeOut(t, j);
    var a, b := multiset(s[..i] + s[i + 1..]), multiset(t[..j] + t[j + 1..]);
    assert a + multiset{s[i]} - multiset{s[i]} == a && b + multiset{s[i]} - multiset{s[i]} == b;
  }

  /** An arrangement holds what the other holds. */
  lemma FoundIn<T>(s: seq<T>, t: seq<T>, j: nat) returns (i: nat)
    requires multiset(s) == multiset(t) && j < |t|
    ensures i < |s| && s[i] == t[j]
  {
    assert t[j] in multiset(s);
    i :| 0 <= i < |s| && s[i] == t[j];
  }

  /** The order `String` sorts by: bytewise, which for UTF-8 is the order of code points. */
  predicate StringLess(a: string, b: string) {
    b != [] && (a == [] || a[0] < b[0] || (a[0] == b[0] && StringLess(a[1..], b[1..])))
  }

  lemma {:induction false} StringLessTotal(a: string, b: string)
    ensures a == b || StringLess(a, b) || StringLess(b, a)
    ensures !(StringLess(a, b) && StringLess(b, a))
    ensures !StringLess(a, a)
  {
    if a != [] && b != [] && a[0] == b[0] {
      StringLessTotal(a[1..], b[1..]);
      assert a == [a[0]] + a[1..] && b == [b[0]] + b[1..];
    }
    if a != [] {
      StringLessTotal(a[1..], a[1..]);
    }
  }

  lemma {:induction false} StringLessTransitive(a: string, b: string, c: string)
    requires StringLess(a, b) && StringLess(b, c)
    ensures StringLess(a, c)
  {
    if a != [] && a[0] == b[0] == c[0] {
      StringLessTransitive(a[1..], b[1..], c[1..]);
    }
  }

  /** Two strings agree on their first `k` characters. */
  predicate AgreeUpTo(a: string, b: string, k: nat) {
    k <= |a| && k <= |b| && a[..k] == b[..k]
  }

  /** What decides: at the first place where they differ the smaller character, or the end of one. */
  lemma {:induction false} StringLessExactlyWhen(a: string, b: string, k: nat)
    requires AgreeUpTo(a, b, k) && (k == |a| || k == |b| || a[k] != b[k])
    ensures StringLess(a, b) <==> k < |b| && (k == |a| || a[k] < b[k])
  {
    if k > 0 {
      assert a[0] == a[..k][0] == b[..k][0] == b[0];
      assert a[1..][..k - 1] == a[..k][1..] && b[1..][..k - 1] == b[..k][1..];
      StringLessExactlyWhen(a[1..], b[1..], k - 1);
    }
  }

  /** A sort key: the deadline decides, the signal id breaks ties. */
  datatype Slot = Slot(deadline: nat, id: string)

  predicate Before(a: Slot, b: Slot) {
    a.deadline < b.deadline || (a.deadline == b.deadline && StringLess(a.id, b.id))
  }

  ghost predicate Ascending(s: seq<Slot>) {
    forall i, j :: 0 <= i < j < |s| ==> Before(s[i], s[j])
  }

  lemma BeforeIsStrictOrder()
    ensures forall a, b :: Before(a, b) ==> !Before(b, a)
    ensures forall a, b :: a == b || Before(a, b) || Before(b, a)
    ensures forall a, b, c :: Before(a, b) && Before(b, c) ==> Before(a, c)
  {
    forall a: Slot, b: Slot ensures Before(a, b) ==> !Before(b, a)
                            ensures a == b || Before(a, b) || Before(b, a)
    {
      StringLessTotal(a.id, b.id);
    }
    forall a, b, c | Before(a, b) && Before(b, c) ensures Before(a, c) {
      if a.deadline == b.deadline == c.deadline {
        StringLessTransitive(a.id, b.id, c.id);
      }
    }
  }

  lemma HasMember<T>(s: seq<T>)
    requires s != []
    ensures exists x :: x in s
  {
    assert s[0] in s;
  }

  /** Sorting leaves nothing to the iteration order of the map the slots were collected from: two
      ascending arrangements of the same slots are the same sequence. */
  lemma {:induction false} AscendingIsUnique(s: seq<Slot>, t: seq<Slot>)
    requires Ascending(s) && Ascending(t)
    requires forall x :: x in s <==> x in t
    ensures s == t
  {
    BeforeIsStrictOrder();
    if s == [] {
      if t != [] { HasMember(t); }
    } else {
      assert s[0] in t;
      assert t[0] in s;
      assert s[0] == t[0];
      forall x ensures x in s[1..] <==> x in t[1..] {
        if x in s[1..] {
          assert x in t && x != t[0];
        }
        if x in t[1..] {
          assert x in s && x != s[0];
        }
      }
      AscendingIsUnique(s[1..], t[1..]);
      assert s == [s[0]] + s[1..] && t == [t[0]] + t[1..];
    }
  }

  function Inserted(s: seq<Slot>, x: Slot): (r: seq<Slot>)
    requires Ascending(s) && x !in s
    ensures Ascending(r)
    ensures forall y :: y in r <==> y == x || y in s
  {
    BeforeIsStrictOrder();
    if s == [] then [x]
    else if Before(x, s[0]) then
      assert forall i :: 0 <= i < |s| ==> Before(x, s[i]);
      [x] + s
    else
      assert s[0] in s;
      var rest := Inserted(s[1..], x);
      assert forall i :: 0 <= i < |rest| ==> rest[i] in rest;
      assert forall y :: y in s <==> y == s[0] || y in s[1..];
      [s[0]] + rest
  }

  /** Insertion sort, standing in for `Vec::sort`. */
  method Sort(slots: seq<Slot>) returns (sorted: seq<Slot>)
    requires forall i, j :: 0 <= i < j < |slots| ==> slots[i] != slots[j]
    ensures Ascending(sorted)
    ensures forall x :: x in sorted <==> x in slots
  {
    sorted := [];
    for n := 0 to |slots|
      invariant Ascending(sorted)
      invariant forall x :: x in sorted <==> x in slots[..n]
    {
      sorted := Inserted(sorted, slots[n]);
      assert slots[..n + 1] == slots[..n] + [slots[n]];
    }
    assert slots[..|slots|] == slots;
  }

  /** Keys in the order of strings: a `BTreeMap`'s own order. */
  method KeysInOrder(keys: set<string>) returns (ordered: seq<string>)
    ensures forall key :: key in ordered <==> key in keys
    ensures forall i, j :: 0 <= i < j < |ordered| ==> StringLess(ordered[i], ordered[j])
  {
    var slots: seq<Slot> := [];
    var rest := keys;
    while rest != {}
      invariant rest <= keys
      invariant forall s: Slot :: s in slots <==> s.deadline == 0 && s.id in keys && s.id !in rest
      invariant forall i, j :: 0 <= i < j < |slots| ==> slots[i] != slots[j]
      decreases rest
    {
      var key :| key in rest;
      rest := rest - {key};
      slots := slots + [Slot(0, key)];
    }
    var sorted := Sort(slots);
    assert forall i :: 0 <= i < |sorted| ==> sorted[i] in sorted;
    ordered := seq(|sorted|, i requires 0 <= i < |sorted| => sorted[i].id);
    forall key ensures key in ordered <==> key in keys {
      if key in keys {
        assert Slot(0, key) in sorted;
        var i :| 0 <= i < |sorted| && sorted[i] == Slot(0, key);
        assert ordered[i] == key;
      }
    }
  }
}
