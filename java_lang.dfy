/**
 * The two pieces of the Java platform the model relies on: `String.hashCode`
 * (a 32-bit polynomial hash with wrap-around) and the listing of a map's
 * values that `new ArrayList<>(map.values())` performs.
 */
module JavaLang {

  /** Java's `int`. */
  newtype int32 = x: int | -0x8000_0000 <= x < 0x8000_0000

  /** Java's `long`. */
  newtype int64 = x: int | -0x8000_0000_0000_0000 <= x < 0x8000_0000_0000_0000

  /** Reduces an integer to the 32-bit two's-complement value Java's `int` arithmetic yields. */
  function Wrap(x: int): (r: int32)
    ensures (r as int - x) % 0x1_0000_0000 == 0
  {
    var m := x % 0x1_0000_0000;
    if m < 0x8000_0000 then m as int32 else (m - 0x1_0000_0000) as int32
  }

  /** 31 to the power `n`. */
  function Pow31(n: nat): nat
  {
    if n == 0 then 1 else 31 * Pow31(n - 1)
  }

  /** The hash `String.hashCode` documents, s[0]*31^(n-1) + ... + s[n-1], over unbounded integers. */
  function HashPolynomial(s: string): int
  {
    if s == [] then 0 else s[0] as int * Pow31(|s| - 1) + HashPolynomial(s[1..])
  }

  /** Appending a character multiplies the polynomial by 31 and adds the character. */
  lemma {:induction false} HashPolynomialAppend(s: string, c: char)
    ensures HashPolynomial(s + [c]) == 31 * HashPolynomial(s) + c as int
  {
    if s == [] {
      assert [c][1..] == [];
    } else {
      HashPolynomialAppend(s[1..], c);
      assert (s + [c])[1..] == s[1..] + [c];
      assert s[0] as int * Pow31(|s|) == 31 * (s[0] as int * Pow31(|s| - 1));
    }
  }

  /** Integers that differ by a multiple of 2^32 wrap to the same `int`. */
  lemma WrapCongruent(x: int, y: int)
    requires (x - y) % 0x1_0000_0000 == 0
    ensures Wrap(x) == Wrap(y)
  {
    var k := (x - y) / 0x1_0000_0000;
    assert x == y + 0x1_0000_0000 * k;
    assert x % 0x1_0000_0000 == y % 0x1_0000_0000;
  }

  /** A step of the hash recursion keeps two integers congruent modulo 2^32. */
  lemma StepCongruent(x: int, y: int, c: int)
    requires (x - y) % 0x1_0000_0000 == 0
    ensures ((31 * x + c) - (31 * y + c)) % 0x1_0000_0000 == 0
  {
    var k := (x - y) / 0x1_0000_0000;
    assert x - y == 0x1_0000_0000 * k;
    assert (31 * x + c) - (31 * y + c) == 0x1_0000_0000 * (31 * k);
  }

  /** Wrapping before a step of the hash recursion does not change the wrapped result. */
  lemma WrapStep(w: int32, p: int, c: int)
    requires w == Wrap(p)
    ensures Wrap(31 * w as int + c) == Wrap(31 * p + c)
  {
    StepCongruent(w as int, p, c);
    WrapCongruent(31 * w as int + c, 31 * p + c);
  }

  /**
   * `String.hashCode`, computed as Java does, one character at a time in
   * 32-bit arithmetic: the documented polynomial reduced to an `int`.
   */
  function StringHash(s: string): (h: int32)
    ensures h == Wrap(HashPolynomial(s))
  {
    if s == [] then 0
    else
      var prefix, last := s[..|s| - 1], s[|s| - 1];
      assert s == prefix + [last];
      HashPolynomialAppend(prefix, last);
      WrapStep(StringHash(prefix), HashPolynomial(prefix), last as int);
      Wrap(31 * StringHash(prefix) as int + last as int)
  }

  /**
   * `list` holds the values of `m` in the order of the key listing `keys`,
   * which names every key of `m` exactly once.
   */
  ghost predicate ListsValues<T>(list: seq<T>, m: map<string, T>, keys: seq<string>)
  {
    && |keys| == |list| == |m|
    && (forall i :: 0 <= i < |keys| ==> keys[i] in m && list[i] == m[keys[i]])
    && (forall i, j :: 0 <= i < j < |keys| ==> keys[i] != keys[j])
    && (forall k :: k in m ==> k in keys)
  }

  /** `new ArrayList<>(m.values())`: a fresh list of the map's values, in an unspecified order. */
  method ValuesOf<T(==)>(m: map<string, T>) returns (list: seq<T>, ghost keys: seq<string>)
    ensures ListsValues(list, m, keys)
    ensures |list| == |m|
    ensures forall i :: 0 <= i < |list| ==> list[i] in m.Values
    ensures forall k :: k in m ==> m[k] in list
  {
    list, keys := [], [];
    var todo := m.Keys;
    while todo != {}
      invariant todo <= m.Keys
      invariant |keys| == |list| && |list| + |todo| == |m|
      invariant forall i :: 0 <= i < |keys| ==> keys[i] in m && keys[i] !in todo && list[i] == m[keys[i]]
      invariant forall i, j :: 0 <= i < j < |keys| ==> keys[i] != keys[j]
      invariant forall k :: k in m && k !in todo ==> k in keys
      decreases |todo|
    {
      var k :| k in todo;
      list, keys := list + [m[k]], keys + [k];
      todo := todo - {k};
    }
    ListedValues(list, m, keys);
  }

  /** A listing holds exactly the map's values. */
  lemma ListedValues<T>(list: seq<T>, m: map<string, T>, keys: seq<string>)
    requires ListsValues(list, m, keys)
    ensures forall i :: 0 <= i < |list| ==> list[i] in m.Values
    ensures forall k :: k in m ==> m[k] in list
  {
    forall k | k in m ensures m[k] in list {
      var i :| 0 <= i < |keys| && keys[i] == k;
      assert list[i] == m[k];
    }
  }

  /** The map that `put(ids[0], vals[0])`, ..., `put(ids[n-1], vals[n-1])` on an empty map produces. */
  ghost function PutAll<T>(ids: seq<string>, vals: seq<T>): map<string, T>
    requires |ids| == |vals|
  {
    if ids == [] then map[] else PutAll(ids[..|ids| - 1], vals[..|vals| - 1])[ids[|ids| - 1] := vals[|vals| - 1]]
  }

  /** Every put key is present, no other key is, and under each key sits the value of its last put. */
  lemma {:induction false} PutAllLast<T>(ids: seq<string>, vals: seq<T>)
    requires |ids| == |vals|
    ensures forall i :: 0 <= i < |ids| ==> ids[i] in PutAll(ids, vals)
    ensures forall k :: k in PutAll(ids, vals) ==> k in ids
    ensures forall i :: 0 <= i < |ids| && (forall j :: i < j < |ids| ==> ids[j] != ids[i]) ==> PutAll(ids, vals)[ids[i]] == vals[i]
  {
    if ids != [] {
      var n := |ids| - 1;
      PutAllLast(ids[..n], vals[..n]);
      assert ids == ids[..n] + [ids[n]];
    }
  }

  /** One more put extends the prefix map by its key. */
  lemma PutAllStep<T>(ids: seq<string>, vals: seq<T>, i: nat)
    requires |ids| == |vals| && i < |ids|
    ensures PutAll(ids[..i + 1], vals[..i + 1]) == PutAll(ids[..i], vals[..i])[ids[i] := vals[i]]
  {
    assert ids[..i + 1][..i] == ids[..i];
    assert vals[..i + 1][..i] == vals[..i];
  }

  /** Putting a map's listing back under its keys rebuilds the map. */
  lemma ListedPutAll<T>(list: seq<T>, m: map<string, T>, keys: seq<string>)
    requires ListsValues(list, m, keys)
    ensures PutAll(keys, list) == m
  {
    PutAllLast(keys, list);
    var p := PutAll(keys, list);
    forall k | k in m ensures k in p && p[k] == m[k] {
      var i :| 0 <= i < |keys| && keys[i] == k;
    }
    assert p.Keys == m.Keys;
  }

  /**
   * `list` is a listing of the values of `m`, as `new ArrayList<>(m.values())`
   * yields for some iteration order: one entry per key, each a value of `m`,
   * every value present.
   */
  ghost predicate Enumerates<T>(list: seq<T>, m: map<string, T>)
  {
    && |list| == |m|
    && (forall i :: 0 <= i < |list| ==> list[i] in m.Values)
    && (forall k :: k in m ==> m[k] in list)
  }

  /** `List.indexOf`: the first position holding `x`, or -1 when none does. */
  method IndexOf<T(==)>(list: seq<T>, x: T) returns (index: int)
    ensures -1 <= index < |list|
    ensures index < 0 <==> x !in list
    ensures 0 <= index ==> list[index] == x && x !in list[..index]
  {
    var i := 0;
    while i < |list| && list[i] != x
      invariant 0 <= i <= |list| && x !in list[..i]
    {
      assert list[..i + 1] == list[..i] + [list[i]];
      i := i + 1;
    }
    if i < |list| {
      index := i;
    } else {
      assert list[..i] == list;
      index := -1;
    }
  }

  /** A listing under a key listing is a listing. */
  lemma Enumerated<T>(list: seq<T>, m: map<string, T>, keys: seq<string>)
    requires ListsValues(list, m, keys)
    ensures Enumerates(list, m)
  {
    ListedValues(list, m, keys);
  }

  /** The lists of `parts` one after another, as `addAll` of each onto an empty ArrayList leaves them. */
  function Concat<T>(parts: seq<seq<T>>): seq<T>
  {
    if parts == [] then [] else Concat(parts[..|parts| - 1]) + parts[|parts| - 1]
  }

  /** The sum of the lengths of `parts`. */
  function TotalLength<T>(parts: seq<seq<T>>): nat
  {
    if parts == [] then 0 else TotalLength(parts[..|parts| - 1]) + |parts[|parts| - 1]|
  }

  /** Appending one more part to the concatenation. */
  lemma ConcatSnoc<T>(parts: seq<seq<T>>, part: seq<T>)
    ensures Concat(parts + [part]) == Concat(parts) + part
    ensures TotalLength(parts + [part]) == TotalLength(parts) + |part|
  {
    assert (parts + [part])[..|parts|] == parts;
  }

  /** The concatenation is as long as its parts together. */
  lemma {:induction false} ConcatLength<T>(parts: seq<seq<T>>)
    ensures |Concat(parts)| == TotalLength(parts)
  {
    if parts != [] {
      ConcatLength(parts[..|parts| - 1]);
    }
  }

  /** The concatenation holds exactly the elements of its parts. */
  lemma {:induction false} ConcatMembers<T>(parts: seq<seq<T>>, x: T)
    ensures x in Concat(parts) <==> exists i :: 0 <= i < |parts| && x in parts[i]
  {
    if parts != [] {
      var n := |parts| - 1;
      ConcatMembers(parts[..n], x);
      if x in Concat(parts[..n]) {
        var i :| 0 <= i < n && x in parts[..n][i];
        assert x in parts[i];
      }
      if exists i :: 0 <= i < |parts| && x in parts[i] {
        var i :| 0 <= i < |parts| && x in parts[i];
        if i < n {
          assert x in parts[..n][i];
        }
      }
    }
  }
}
