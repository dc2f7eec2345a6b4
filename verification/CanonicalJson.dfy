/**
 The canonical JSON stream that feeds the fingerprint hasher. The hasher is modelled by the bytes it is given.
 Numbers are their canonical decimal rendering.
 */
module CanonicalJson {
  import opened Sorting
  import opened Texts

  datatype Json =
    | Null
    | Bool(b: bool)
    | Number(rendering: Text)
    | String(s: Text)
    | Array(items: seq<Json>)
    | Object(fields: map<Text, Json>)

  const USIZE_LIMIT := 0x1_0000_0000_0000_0000

  /** `n` as `width` little-endian bytes, truncated like a machine word. */
  function LittleEndian(n: nat, width: nat): (bytes: Bytes)
    ensures |bytes| == width
  {
    if width == 0 then [] else [n % 256] + LittleEndian(n / 256, width - 1)
  }

  function HashUsize(n: nat): Bytes {
    LittleEndian(n, 8)
  }

  function HashText(s: Text): Bytes {
    s + [0xFF]
  }

  ghost predicate IsLeast(k: Text, keys: set<Text>) {
    k in keys && forall j: Text :: j in keys ==> TextLe(k, j)
  }

  lemma {:induction false} LeastExists(keys: set<Text>)
    requires keys != {}
    ensures exists k: Text :: IsLeast(k, keys)
  {
    var x: Text :| x in keys;
    var rest := keys - {x};
    TextLeTotal(x, x);
    if rest == {} {
      forall j: Text | j in keys ensures j == x {
        assert j == x || j in rest;
      }
      assert IsLeast(x, keys);
    } else {
      LeastExists(rest);
      var y: Text :| IsLeast(y, rest);
      TextLeTotal(x, y);
      if TextLe(x, y) {
        forall j: Text | j in rest ensures TextLe(x, j) {
          TextLeTransitive(x, y, j);
        }
        assert IsLeast(x, keys);
      } else {
        assert IsLeast(y, keys);
      }
    }
  }

  ghost function Least(keys: set<Text>): (k: Text)
    requires keys != {}
    ensures IsLeast(k, keys)
  {
    LeastExists(keys);
    var k: Text :| IsLeast(k, keys);
    k
  }

  /** The keys in ascending order. */
  ghost function SortedKeys(keys: set<Text>): (r: seq<Text>)
    ensures forall k: Text :: k in r <==> k in keys
    ensures |r| == |keys|
  {
    if keys == {} then [] else [Least(keys)] + SortedKeys(keys - {Least(keys)})
  }

  /** What is written to the hasher for one value. */
  ghost function Stream(v: Json): Bytes
    decreases v, 1
  {
    match v
    case Null => [0]
    case Bool(b) => [1, if b then 1 else 0]
    case Number(rendering) => [2] + HashText(rendering)
    case String(s) => [3] + HashText(s)
    case Array(items) => [4] + HashUsize(|items|) + StreamItems(items)
    case Object(fields) => [5] + HashUsize(|fields|) + StreamFields(v, SortedKeys(fields.Keys))
  }

  ghost function StreamItems(items: seq<Json>): Bytes
    decreases items, 0
  {
    if items == [] then [] else Stream(items[0]) + StreamItems(items[1..])
  }

  ghost function StreamFields(v: Json, keys: seq<Text>): Bytes
    requires v.Object? && forall k: Text :: k in keys ==> k in v.fields
    decreases v, 0, |keys|
  {
    if keys == [] then []
    else HashText(keys[0]) + Stream(v.fields[keys[0]]) + StreamFields(v, keys[1..])
  }

  // ----- unique decodability -----

  /** Every length in the value fits a machine word. */
  ghost predicate Fits(v: Json) {
    match v
    case Array(items) => |items| < USIZE_LIMIT && forall i :: 0 <= i < |items| ==> Fits(items[i])
    case Object(fields) => |fields| < USIZE_LIMIT && forall k: Text :: k in fields ==> Fits(fields[k])
    case _ => true
  }

  function Capacity(width: nat): nat {
    if width == 0 then 1 else 256 * Capacity(width - 1)
  }

  lemma {:induction false} LittleEndianInjective(n: nat, m: nat, width: nat)
    requires n < Capacity(width) && m < Capacity(width) && LittleEndian(n, width) == LittleEndian(m, width)
    ensures n == m
  {
    if width > 0 {
      assert LittleEndian(n, width)[0] == LittleEndian(m, width)[0];
      assert LittleEndian(n, width)[1..] == LittleEndian(n / 256, width - 1);
      assert LittleEndian(m, width)[1..] == LittleEndian(m / 256, width - 1);
      LittleEndianInjective(n / 256, m / 256, width - 1);
    }
  }

  lemma {:induction false} UsizeInjective(n: nat, m: nat)
    requires n < USIZE_LIMIT && m < USIZE_LIMIT && HashUsize(n) == HashUsize(m)
    ensures n == m
  {
    assert Capacity(8) == USIZE_LIMIT by {
      assert Capacity(4) == 0x1_0000_0000;
    }
    LittleEndianInjective(n, m, 8);
  }

  /** Equal streams whose heads have equal length agree on the heads and on the rest. */
  lemma {:induction false} Cut(p: Bytes, x: Bytes, s: Bytes, q: Bytes, y: Bytes, t: Bytes)
    requires p + x + s == q + y + t && |p| == |q|
    ensures p == q && x + s == y + t
  {
    assert p + x + s == p + (x + s) && q + y + t == q + (y + t);
    CutHead(p, x + s, q, y + t);
  }

  lemma {:induction false} CutHead(p: Bytes, s: Bytes, q: Bytes, t: Bytes)
    requires p + s == q + t && |p| == |q|
    ensures p == q && s == t
  {
    assert (p + s)[..|p|] == p && (q + t)[..|q|] == q;
    assert (p + s)[|p|..] == s && (q + t)[|q|..] == t;
  }

  lemma {:induction false} TextDecodable(a: Text, b: Text, s: Bytes, t: Bytes)
    requires HashText(a) + s == HashText(b) + t
    ensures a == b && s == t
  {
    if |a| < |b| {
      ShorterTextDiffers(a, b, s, t);
    } else if |b| < |a| {
      ShorterTextDiffers(b, a, t, s);
    } else {
      Cut(a, [0xFF], s, b, [0xFF], t);
      assert ([0xFF] + s)[1..] == s && ([0xFF] + t)[1..] == t;
    }
  }

  lemma {:induction false} ShorterTextDiffers(a: Text, b: Text, s: Bytes, t: Bytes)
    requires |a| < |b|
    ensures HashText(a) + s != HashText(b) + t
  {
    assert b[|a|] in b;
    assert (HashText(a) + s)[|a|] == 0xFF && (HashText(b) + t)[|a|] == b[|a|];
  }

  /**
   Main result: the stream of a value tells where it ends and what the value was, whatever follows it. So distinct
   values have distinct streams, and no stream is a proper prefix of another.
   */
  lemma {:induction false} Decodable(a: Json, b: Json, s: Bytes, t: Bytes)
    requires Fits(a) && Fits(b) && Stream(a) + s == Stream(b) + t
    ensures a == b && s == t
    decreases a, 2
  {
    assert (Stream(a) + s)[0] == Stream(a)[0] && (Stream(b) + t)[0] == Stream(b)[0];
    match a {
      case Null => CutHead([0], s, [0], t);
      case Bool(_) => CutHead(Stream(a), s, Stream(b), t);
      case Number(x) =>
        Cut([2], HashText(x), s, [2], HashText(b.rendering), t);
        TextDecodable(x, b.rendering, s, t);
      case String(x) =>
        Cut([3], HashText(x), s, [3], HashText(b.s), t);
        TextDecodable(x, b.s, s, t);
      case Array(_) => ArrayDecodable(a, b, s, t);
      case Object(_) => ObjectDecodable(a, b, s, t);
    }
  }

  lemma {:induction false} ArrayDecodable(a: Json, b: Json, s: Bytes, t: Bytes)
    requires a.Array? && b.Array? && Fits(a) && Fits(b) && Stream(a) + s == Stream(b) + t
    ensures a == b && s == t
    decreases a, 1
  {
    Cut([4] + HashUsize(|a.items|), StreamItems(a.items), s, [4] + HashUsize(|b.items|), StreamItems(b.items), t);
    LengthsAgree(4, |a.items|, |b.items|);
    ItemsDecodable(a.items, b.items, s, t);
  }

  lemma {:induction false} ObjectDecodable(a: Json, b: Json, s: Bytes, t: Bytes)
    requires a.Object? && b.Object? && Fits(a) && Fits(b) && Stream(a) + s == Stream(b) + t
    ensures a == b && s == t
    decreases a, 1
  {
    var ka, kb := SortedKeys(a.fields.Keys), SortedKeys(b.fields.Keys);
    Cut([5] + HashUsize(|a.fields|), StreamFields(a, ka), s, [5] + HashUsize(|b.fields|), StreamFields(b, kb), t);
    LengthsAgree(5, |a.fields|, |b.fields|);
    FieldsDecodable(a, b, ka, kb, s, t);
    SameFields(a.fields, b.fields, ka);
  }

  lemma {:induction false} SameFields(f: map<Text, Json>, g: map<Text, Json>, keys: seq<Text>)
    requires keys == SortedKeys(f.Keys) == SortedKeys(g.Keys)
    requires forall k: Text :: k in keys ==> f[k] == g[k]
    ensures f == g
  {
    assert forall k: Text :: k in f <==> k in keys;
  }

  lemma {:induction false} LengthsAgree(tag: Byte, n: nat, m: nat)
    requires n < USIZE_LIMIT && m < USIZE_LIMIT && [tag] + HashUsize(n) == [tag] + HashUsize(m)
    ensures n == m
  {
    assert ([tag] + HashUsize(n))[1..] == HashUsize(n) && ([tag] + HashUsize(m))[1..] == HashUsize(m);
    UsizeInjective(n, m);
  }

  lemma {:induction false} ItemsDecodable(xs: seq<Json>, ys: seq<Json>, s: Bytes, t: Bytes)
    requires |xs| == |ys| && StreamItems(xs) + s == StreamItems(ys) + t
    requires forall i :: 0 <= i < |xs| ==> Fits(xs[i]) && Fits(ys[i])
    ensures xs == ys && s == t
    decreases xs, 0
  {
    if xs == [] {
      assert [] + s == s && [] + t == t;
    } else {
      var x, y := StreamItems(xs[1..]) + s, StreamItems(ys[1..]) + t;
      assert StreamItems(xs) + s == Stream(xs[0]) + x;
      assert StreamItems(ys) + t == Stream(ys[0]) + y;
      Decodable(xs[0], ys[0], x, y);
      ItemsDecodable(xs[1..], ys[1..], s, t);
      assert xs == [xs[0]] + xs[1..] && ys == [ys[0]] + ys[1..];
    }
  }

  lemma {:induction false} FieldsDecodable(a: Json, b: Json, ka: seq<Text>, kb: seq<Text>, s: Bytes, t: Bytes)
    requires a.Object? && b.Object? && Fits(a) && Fits(b) && |ka| == |kb|
    requires forall k: Text :: k in ka ==> k in a.fields
    requires forall k: Text :: k in kb ==> k in b.fields
    requires StreamFields(a, ka) + s == StreamFields(b, kb) + t
    ensures ka == kb && s == t
    ensures forall k: Text :: k in ka ==> a.fields[k] == b.fields[k]
    decreases a, 0, |ka|
  {
    if ka == [] {
      assert [] + s == s && [] + t == t;
    } else {
      var x, y := a.fields[ka[0]], b.fields[kb[0]];
      var u, v := StreamFields(a, ka[1..]) + s, StreamFields(b, kb[1..]) + t;
      FieldFirst(a, ka, s);
      FieldFirst(b, kb, t);
      TextDecodable(ka[0], kb[0], Stream(x) + u, Stream(y) + v);
      Decodable(x, y, u, v);
      FieldsDecodable(a, b, ka[1..], kb[1..], s, t);
      assert ka == [ka[0]] + ka[1..] && kb == [kb[0]] + kb[1..];
    }
  }

  lemma {:induction false} FieldFirst(v: Json, keys: seq<Text>, s: Bytes)
    requires v.Object? && keys != [] && forall k: Text :: k in keys ==> k in v.fields
    ensures StreamFields(v, keys) + s
            == HashText(keys[0]) + (Stream(v.fields[keys[0]]) + (StreamFields(v, keys[1..]) + s))
  {
  }

  // ----- the hashing procedure -----

  class Hasher {
    var written: Bytes

    constructor ()
      ensures written == []
    {
      written := [];
    }

    method Write(bytes: Bytes)
      modifies this
      ensures written == old(written) + bytes
    {
      written := written + bytes;
    }
  }

  lemma {:induction false} SortedKeysSorted(keys: set<Text>)
    ensures SortedBy(SortedKeys(keys), KeyOrder()) && multiset(SortedKeys(keys)) == multiset(keys)
  {
    if keys != {} {
      var k, rest := Least(keys), keys - {Least(keys)};
      var sorted := SortedKeys(rest);
      SortedKeysSorted(rest);
      assert keys == rest + {k};
      LeastFirst(sorted, k, keys);
    }
  }

  lemma {:induction false} LeastFirst(sorted: seq<Text>, k: Text, keys: set<Text>)
    requires SortedBy(sorted, KeyOrder()) && IsLeast(k, keys) && forall i :: 0 <= i < |sorted| ==> sorted[i] in keys
    ensures SortedBy([k] + sorted, KeyOrder())
  {
  }

  /** However the keys are enumerated, sorting them gives `SortedKeys`. */
  lemma {:induction false} SortedEnumeration(keys: seq<Text>, all: set<Text>)
    requires multiset(keys) == multiset(all)
    ensures SortBy(keys, KeyOrder()) == SortedKeys(all)
  {
    KeyOrderIsTotal();
    SortedKeysSorted(all);
    SortBySorts(keys, KeyOrder());
    AnySortAgrees(SortBy(keys, KeyOrder()), SortedKeys(all), KeyOrder());
  }

  /** The keys of an object in whatever order the map yields them. */
  method CollectKeys(fields: map<Text, Json>) returns (keys: seq<Text>)
    ensures multiset(keys) == multiset(fields.Keys)
  {
    keys := [];
    var left := fields.Keys;
    while left != {}
      invariant left <= fields.Keys && multiset(keys) + multiset(left) == multiset(fields.Keys)
      decreases left
    {
      var k: Text :| k in left;
      assert left == (left - {k}) + {k};
      keys := keys + [k];
      left := left - {k};
    }
  }

  /** Feeds the canonical stream to the hasher, whatever order the maps yield their keys in. */
  method HashCanonicalJson(value: Json, hasher: Hasher)
    modifies hasher
    ensures hasher.written == old(hasher.written) + Stream(value)
    decreases value, 1
  {
    match value {
      case Null => hasher.Write([0]);
      case Bool(b) =>
        hasher.Write([1]);
        hasher.Write([if b then 1 else 0]);
        Tagged(old(hasher.written), [1], [], [if b then 1 else 0]);
      case Number(rendering) =>
        hasher.Write([2]);
        hasher.Write(HashText(rendering));
        Tagged(old(hasher.written), [2], [], HashText(rendering));
      case String(s) =>
        hasher.Write([3]);
        hasher.Write(HashText(s));
        Tagged(old(hasher.written), [3], [], HashText(s));
      case Array(items) =>
        hasher.Write([4]);
        hasher.Write(HashUsize(|items|));
        HashItems(items, hasher);
        Tagged(old(hasher.written), [4], HashUsize(|items|), StreamItems(items));
      case Object(fields) =>
        hasher.Write([5]);
        hasher.Write(HashUsize(|fields|));
        var keys := CollectKeys(fields);
        SortedEnumeration(keys, fields.Keys);
        keys := SortBy(keys, KeyOrder());
        HashFields(value, keys, hasher);
        Tagged(old(hasher.written), [5], HashUsize(|fields|), StreamFields(value, keys));
    }
  }

  lemma {:induction false} Tagged(before: Bytes, tag: Bytes, length: Bytes, content: Bytes)
    ensures before + tag + length + content == before + (tag + length + content)
    ensures before + tag + content == before + (tag + content)
  {
  }

  method HashItems(items: seq<Json>, hasher: Hasher)
    modifies hasher
    ensures hasher.written == old(hasher.written) + StreamItems(items)
    decreases items, 0
  {
    ghost var start := hasher.written;
    for i := 0 to |items|
      invariant hasher.written + StreamItems(items[i..]) == start + StreamItems(items)
    {
      assert items[i..][1..] == items[i + 1..];
      HashCanonicalJson(items[i], hasher);
    }
    assert hasher.written + [] == hasher.written && items[|items|..] == [];
  }

  method HashFields(value: Json, keys: seq<Text>, hasher: Hasher)
    requires value.Object? && forall k: Text :: k in keys ==> k in value.fields
    modifies hasher
    ensures hasher.written == old(hasher.written) + StreamFields(value, keys)
    decreases value, 0
  {
    ghost var start := hasher.written;
    for i := 0 to |keys|
      invariant hasher.written + StreamFields(value, keys[i..]) == start + StreamFields(value, keys)
    {
      ghost var done := hasher.written;
      FieldFirst(value, keys[i..], []);
      assert keys[i..][1..] == keys[i + 1..] && keys[i] in keys;
      hasher.Write(HashText(keys[i]));
      HashCanonicalJson(value.fields[keys[i]], hasher);
      Regroup(done, HashText(keys[i]), Stream(value.fields[keys[i]]), StreamFields(value, keys[i + 1..]));
    }
    assert hasher.written + [] == hasher.written && keys[|keys|..] == [];
  }

  lemma {:induction false} Regroup(a: Bytes, b: Bytes, c: Bytes, d: Bytes)
    ensures a + b + c + d == a + (b + (c + (d + []))) == a + (b + c + d)
  {
  }
}
