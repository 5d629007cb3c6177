/** First-seen order, and JavaScript's insertion-ordered `Map` as a sequence of entries. */
module OrderedMap {
  import opened Sequences
  import opened Wrappers

  // ---------- First-seen order ----------

  /** The distinct members of `s`, in the order in which they first occur. */
  function FirstSeen(s: seq<string>): (r: seq<string>)
    ensures forall x :: x in r <==> x in s
  {
    if s == [] then []
    else
      var before := FirstSeen(s[..|s| - 1]);
      if s[|s| - 1] in before then before else before + [s[|s| - 1]]
  }

  predicate Distinct(s: seq<string>) {
    forall i, j :: 0 <= i < j < |s| ==> s[i] != s[j]
  }

  lemma {:induction false} FirstSeenDistinct(s: seq<string>)
    ensures Distinct(FirstSeen(s))
  {
    if s != [] {
      FirstSeenDistinct(s[..|s| - 1]);
    }
  }

  lemma {:induction false} FirstSeenOfDistinct(s: seq<string>)
    ensures Distinct(s) <==> FirstSeen(s) == s
  {
    FirstSeenDistinct(s);
    if s != [] && Distinct(s) {
      var n := |s| - 1;
      FirstSeenOfDistinct(s[..n]);
      assert s == s[..n] + [s[n]];
    }
  }

  lemma FirstSeenAppend(s: seq<string>, x: string)
    ensures FirstSeen(s + [x]) == if x in s then FirstSeen(s) else FirstSeen(s) + [x]
  {
    assert (s + [x])[..|s|] == s;
  }

  /** Taking the first-seen members of the front early changes nothing. */
  lemma {:induction false} FirstSeenEarly(a: seq<string>, b: seq<string>)
    ensures FirstSeen(FirstSeen(a) + b) == FirstSeen(a + b)
  {
    if b == [] {
      FirstSeenDistinct(a);
      FirstSeenOfDistinct(FirstSeen(a));
      assert FirstSeen(a) + b == FirstSeen(a) && a + b == a;
    } else {
      var front, x := b[..|b| - 1], b[|b| - 1];
      FirstSeenEarly(a, front);
      assert b == front + [x];
      ConcatAssociative(FirstSeen(a), front, [x]);
      ConcatAssociative(a, front, [x]);
      FirstSeenAppend(FirstSeen(a) + front, x);
      FirstSeenAppend(a + front, x);
    }
  }

  /** ...and so does taking those of the back early. */
  lemma {:induction false} FirstSeenLate(a: seq<string>, b: seq<string>)
    ensures FirstSeen(a + FirstSeen(b)) == FirstSeen(a + b)
  {
    if b != [] {
      var front, x := b[..|b| - 1], b[|b| - 1];
      FirstSeenLate(a, front);
      assert b == front + [x];
      ConcatAssociative(a, front, [x]);
      FirstSeenAppend(a + front, x);
      FirstSeenAppend(front, x);
      if x !in front {
        ConcatAssociative(a, FirstSeen(front), [x]);
        FirstSeenAppend(a + FirstSeen(front), x);
      }
    }
  }

  // ---------- Entries ----------

  datatype Entry<+T> = Entry(key: string, value: T)

  function Keys<T>(m: seq<Entry<T>>): (r: seq<string>)
    ensures |r| == |m|
  {
    seq(|m|, i requires 0 <= i < |m| => m[i].key)
  }

  predicate Unique<T>(m: seq<Entry<T>>) {
    Distinct(Keys(m))
  }

  /** Where `key` first occurs, or the length when it does not. */
  function IndexOf(keys: seq<string>, key: string): (i: nat)
    ensures i <= |keys|
    ensures i < |keys| ==> keys[i] == key
    ensures i < |keys| <==> key in keys
    ensures forall j :: 0 <= j < i ==> keys[j] != key
  {
    if keys == [] then 0
    else if keys[0] == key then 0
    else IndexOf(keys[1..], key) + 1
  }

  /** `map.get(key)`. */
  function Find<T>(m: seq<Entry<T>>, key: string): Option<T> {
    var i := IndexOf(Keys(m), key);
    if i < |m| then Some(m[i].value) else None
  }

  /** `map.set(key, value)`: an existing key keeps its place, a new one goes last. */
  function Set<T>(m: seq<Entry<T>>, key: string, value: T): seq<Entry<T>> {
    var i := IndexOf(Keys(m), key);
    if i < |m| then m[i := Entry(key, value)] else m + [Entry(key, value)]
  }

  /** `new Map(list)`: later entries overwrite earlier ones in place. */
  function Collect<T>(list: seq<Entry<T>>): seq<Entry<T>> {
    if list == [] then []
    else Set(Collect(list[..|list| - 1]), list[|list| - 1].key, list[|list| - 1].value)
  }

  lemma SetKeys<T>(m: seq<Entry<T>>, key: string, value: T)
    ensures Keys(Set(m, key, value)) == if key in Keys(m) then Keys(m) else Keys(m) + [key]
    ensures Unique(m) ==> Unique(Set(m, key, value))
  {
  }

  /** Setting one more key keeps the keys in first-seen order. */
  lemma SetKeysFirstSeen<T>(m: seq<Entry<T>>, seen: seq<string>, key: string, value: T)
    requires Keys(m) == FirstSeen(seen)
    ensures Keys(Set(m, key, value)) == FirstSeen(seen + [key])
  {
    SetKeys(m, key, value);
    FirstSeenAppend(seen, key);
  }

  lemma KeysAppend<T>(a: seq<Entry<T>>, b: seq<Entry<T>>)
    requires b != []
    ensures Keys(a) + Keys(b) == (Keys(a) + Keys(b[..|b| - 1])) + [b[|b| - 1].key]
  {
  }

  lemma IndexOfUnique(keys: seq<string>, i: nat)
    requires Distinct(keys) && i < |keys|
    ensures IndexOf(keys, keys[i]) == i
  {
  }

  lemma {:induction false} IndexOfAppend(keys: seq<string>, last: string, key: string)
    requires key in keys
    ensures IndexOf(keys + [last], key) == IndexOf(keys, key)
  {
    var i, j := IndexOf(keys, key), IndexOf(keys + [last], key);
    assert (keys + [last])[i] == key;
    assert j < |keys| ==> keys[j] == key;
  }

  /** Reading back what was set, and what was there before. */
  lemma FindSet<T>(m: seq<Entry<T>>, key: string, value: T, other: string)
    ensures Find(Set(m, key, value), other) == if other == key then Some(value) else Find(m, other)
  {
    SetKeys(m, key, value);
    if key !in Keys(m) && other in Keys(m) {
      IndexOfAppend(Keys(m), key, other);
    }
  }

  lemma SetSet<T>(m: seq<Entry<T>>, key: string, v: T, w: T)
    ensures Set(Set(m, key, v), key, w) == Set(m, key, w)
  {
    SetKeys(m, key, v);
    if key !in Keys(m) {
      var i := IndexOf(Keys(m) + [key], key);
      assert i == |m|;
      assert (m + [Entry(key, v)])[|m| := Entry(key, w)] == m + [Entry(key, w)];
    }
  }

  lemma {:induction false} CollectKeys<T>(list: seq<Entry<T>>)
    ensures Keys(Collect(list)) == FirstSeen(Keys(list))
    ensures Unique(Collect(list))
  {
    if list != [] {
      var front, x := list[..|list| - 1], list[|list| - 1];
      CollectKeys(front);
      SetKeys(Collect(front), x.key, x.value);
      assert Keys(list)[..|front|] == Keys(front);
    }
  }

  lemma {:induction false} CollectUnique<T>(list: seq<Entry<T>>)
    requires Unique(list)
    ensures Collect(list) == list
  {
    if list != [] {
      var front, x := list[..|list| - 1], list[|list| - 1];
      assert Keys(front) == Keys(list)[..|front|];
      CollectUnique(front);
      forall j | 0 <= j < |front|
        ensures Keys(front)[j] != x.key
      {
        assert Keys(list)[j] != Keys(list)[|front|];
      }
      assert list == front + [x];
    }
  }

  /** Of entries with one key the last one counts. */
  lemma CollectLastWins<T>(list: seq<Entry<T>>, last: Entry<T>, key: string)
    ensures Find(Collect(list + [last]), key) == if key == last.key then Some(last.value) else Find(Collect(list), key)
  {
    assert (list + [last])[..|list|] == list;
    FindSet(Collect(list), last.key, last.value, key);
  }
}
