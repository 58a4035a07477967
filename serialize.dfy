/** The byte-level serialization format the payment structures are written in
    (the Bitcoin stream format): little-endian fixed-width integers, the
    compact-size length prefix, length-prefixed byte vectors and strings,
    vectors of records, and std::map as a count followed by its entries in
    ascending key order. The serialization library itself (serialize.h) is not
    part of this model; its rules are restated here.

    Every reader takes a byte stream and returns the value it read together
    with the rest of the stream, or None where the C++ reader throws. */
module Serialize {
  import opened Common

  datatype Decoded<+T> = Decoded(value: T, rest: Bytes)

  /** The largest length a compact-size prefix may announce (MAX_SIZE). */
  const MAX_SIZE: nat := 0x0200_0000

  function Pow256(n: nat): (r: nat)
    ensures r >= 1
  {
    if n == 0 then 1 else 256 * Pow256(n - 1)
  }

  lemma {:induction false} Pow256Add(a: nat, b: nat)
    ensures Pow256(a + b) == Pow256(a) * Pow256(b)
  {
    if a > 0 {
      Pow256Add(a - 1, b);
      assert Pow256(a + b) == 256 * Pow256(a - 1 + b);
    }
  }

  // ---------------------------------------------------------------------------
  // Little-endian integers

  /** The n low-order bytes of x, least significant first. */
  function LE(x: nat, n: nat): (b: Bytes)
    requires x < Pow256(n)
    ensures |b| == n
  {
    if n == 0 then [] else [x % 256] + LE(x / 256, n - 1)
  }

  /** The number whose little-endian bytes are b. */
  function FromLE(b: Bytes): (x: nat)
    ensures x < Pow256(|b|)
  {
    if b == [] then 0 else b[0] + 256 * FromLE(b[1..])
  }

  lemma {:induction false} FromLEOfLE(x: nat, n: nat)
    requires x < Pow256(n)
    ensures FromLE(LE(x, n)) == x
  {
    if n > 0 {
      FromLEOfLE(x / 256, n - 1);
      assert LE(x, n)[1..] == LE(x / 256, n - 1);
    }
  }

  lemma {:induction false} LEOfFromLE(b: Bytes)
    ensures LE(FromLE(b), |b|) == b
  {
    if b != [] {
      var x, y := FromLE(b), FromLE(b[1..]);
      assert x == b[0] + 256 * y;
      DivMod256(b[0], y);
      assert LE(x, |b|) == [x % 256] + LE(x / 256, |b| - 1);
      LEOfFromLE(b[1..]);
      assert b == [b[0]] + b[1..];
    }
  }

  lemma DivMod256(lo: int, hi: int)
    requires 0 <= lo < 256
    ensures (lo + 256 * hi) % 256 == lo && (lo + 256 * hi) / 256 == hi
  {
  }

  /** Reading a byte string as a little-endian number loses nothing. */
  lemma FromLEInjective(a: Bytes, b: Bytes)
    requires |a| == |b| && FromLE(a) == FromLE(b)
    ensures a == b
  {
    LEOfFromLE(a);
    LEOfFromLE(b);
  }

  function WriteU32(x: uint32): (b: Bytes)
    ensures |b| == 4
  {
    LE(x, 4)
  }

  function ReadU32(s: Bytes): Option<Decoded<uint32>> {
    if |s| < 4 then None else Some(Decoded(FromLE(s[..4]), s[4..]))
  }

  /** A signed 32-bit int is written as its two's-complement bit pattern. */
  function WriteI32(x: int32): (b: Bytes)
    ensures |b| == 4
  {
    LE(if x < 0 then x + 0x1_0000_0000 else x, 4)
  }

  function ReadI32(s: Bytes): Option<Decoded<int32>> {
    if |s| < 4 then None
    else
      var u := FromLE(s[..4]);
      Some(Decoded(if u < 0x8000_0000 then u else u - 0x1_0000_0000, s[4..]))
  }

  /** A uint256 is written as its 32 raw bytes. */
  function ReadHash(s: Bytes): Option<Decoded<Hash>> {
    if |s| < 32 then None else Some(Decoded(s[..32], s[32..]))
  }

  lemma U32RoundTrip(x: uint32, rest: Bytes)
    ensures ReadU32(WriteU32(x) + rest) == Some(Decoded(x, rest))
  {
    var s := WriteU32(x) + rest;
    assert s[..4] == WriteU32(x);
    FromLEOfLE(x, 4);
  }

  lemma I32RoundTrip(x: int32, rest: Bytes)
    ensures ReadI32(WriteI32(x) + rest) == Some(Decoded(x, rest))
  {
    var s := WriteI32(x) + rest;
    assert s[..4] == WriteI32(x);
    FromLEOfLE(if x < 0 then x + 0x1_0000_0000 else x, 4);
  }

  lemma HashRoundTrip(h: Hash, rest: Bytes)
    ensures ReadHash(h + rest) == Some(Decoded(h, rest))
  {
    assert (h + rest)[..32] == h;
  }

  // ---------------------------------------------------------------------------
  // Compact size

  /** The compact-size prefix for n: one byte below 253, otherwise a marker
      byte (253, 254, 255) and 2, 4 or 8 little-endian bytes. A size_t beyond
      64 bits cannot occur; its low 64 bits are what would be written. */
  function WriteCompactSize(n: nat): (b: Bytes)
    ensures 1 <= |b| <= 9
  {
    if n < 253 then [n]
    else if n <= 0xffff then [253] + LE(n, 2)
    else if n <= 0xffff_ffff then [254] + LE(n, 4)
    else [255] + LE(n % 0x1_0000_0000_0000_0000, 8)
  }

  /** Reads a compact size, refusing a non-canonical (longer than necessary)
      encoding and a size above MAX_SIZE, as the C++ reader does by throwing. */
  function ReadCompactSize(s: Bytes): (r: Option<Decoded<nat>>)
    ensures r.Some? ==> r.value.value <= MAX_SIZE && |r.value.rest| < |s|
  {
    if |s| == 0 then None
    else
      var (n, width) :=
        if s[0] < 253 then (s[0], 0)
        else if s[0] == 253 then (if |s| < 3 then -1 else FromLE(s[1..3]), 2)
        else if s[0] == 254 then (if |s| < 5 then -1 else FromLE(s[1..5]), 4)
        else (if |s| < 9 then -1 else FromLE(s[1..9]), 8);
      var least := if width == 0 then 0 else if width == 2 then 253 else if width == 4 then 0x1_0000 else 0x1_0000_0000;
      if n < least || n > MAX_SIZE then None
      else Some(Decoded(n, s[1 + width..]))
  }

  lemma CompactSizeRoundTrip(n: nat, rest: Bytes)
    requires n <= MAX_SIZE
    ensures ReadCompactSize(WriteCompactSize(n) + rest) == Some(Decoded(n, rest))
  {
    var s := WriteCompactSize(n) + rest;
    if n < 253 {
      assert s[0] == n && s[1..] == rest;
    } else if n <= 0xffff {
      assert s[1..3] == LE(n, 2);
      FromLEOfLE(n, 2);
      assert s[3..] == rest;
    } else {
      assert s[1..5] == LE(n, 4);
      FromLEOfLE(n, 4);
      assert s[5..] == rest;
    }
  }

  // ---------------------------------------------------------------------------
  // Byte vectors and strings (CScript, std::vector<unsigned char>, std::string)

  function WriteBytes(b: Bytes): Bytes {
    WriteCompactSize(|b|) + b
  }

  function ReadBytes(s: Bytes): (r: Option<Decoded<Bytes>>)
    ensures r.Some? ==> |r.value.rest| < |s|
  {
    match ReadCompactSize(s)
    case None => None
    case Some(Decoded(n, t)) =>
      if |t| < n then None else Some(Decoded(t[..n], t[n..]))
  }

  lemma BytesRoundTrip(b: Bytes, rest: Bytes)
    requires |b| <= MAX_SIZE
    ensures ReadBytes(WriteBytes(b) + rest) == Some(Decoded(b, rest))
  {
    assert WriteBytes(b) + rest == WriteCompactSize(|b|) + (b + rest);
    CompactSizeRoundTrip(|b|, b + rest);
    assert (b + rest)[..|b|] == b && (b + rest)[|b|..] == rest;
  }

  // ---------------------------------------------------------------------------
  // Sequences of records (std::vector<T>)

  /** What a pair of writer and reader promise each other: reading what was
      written for an acceptable value gives back its normal form and leaves the
      rest of the stream. */
  ghost predicate Inverse<T(!new)>(write: T -> Bytes, read: Bytes -> Option<Decoded<T>>,
                                   ok: T -> bool, norm: T -> T)
  {
    forall x, rest :: ok(x) ==> read(write(x) + rest) == Some(Decoded(norm(x), rest))
  }

  function WriteAll<T>(xs: seq<T>, write: T -> Bytes): Bytes {
    if xs == [] then [] else write(xs[0]) + WriteAll(xs[1..], write)
  }

  /** Reads n records one after the other. */
  function ReadN<T>(s: Bytes, n: nat, read: Bytes -> Option<Decoded<T>>): (r: Option<Decoded<seq<T>>>)
    ensures r.Some? ==> |r.value.value| == n
    decreases n
  {
    if n == 0 then Some(Decoded([], s))
    else match read(s)
      case None => None
      case Some(Decoded(x, t)) =>
        match ReadN(t, n - 1, read)
        case None => None
        case Some(Decoded(xs, u)) => Some(Decoded([x] + xs, u))
  }

  function MapSeq<T>(xs: seq<T>, f: T -> T): (r: seq<T>)
    ensures |r| == |xs| && forall i :: 0 <= i < |xs| ==> r[i] == f(xs[i])
  {
    if xs == [] then [] else [f(xs[0])] + MapSeq(xs[1..], f)
  }

  lemma {:induction false} ReadNWriteAll<T(!new)>(xs: seq<T>, rest: Bytes, write: T -> Bytes,
                                                 read: Bytes -> Option<Decoded<T>>,
                                                 ok: T -> bool, norm: T -> T)
    requires Inverse(write, read, ok, norm)
    requires forall i :: 0 <= i < |xs| ==> ok(xs[i])
    ensures ReadN(WriteAll(xs, write) + rest, |xs|, read) == Some(Decoded(MapSeq(xs, norm), rest))
  {
    if xs == [] {
      assert WriteAll(xs, write) + rest == rest;
    } else {
      var tail := WriteAll(xs[1..], write) + rest;
      assert WriteAll(xs, write) + rest == write(xs[0]) + tail;
      assert read(write(xs[0]) + tail) == Some(Decoded(norm(xs[0]), tail));
      ReadNWriteAll(xs[1..], rest, write, read, ok, norm);
    }
  }

  function WriteVector<T>(xs: seq<T>, write: T -> Bytes): Bytes {
    WriteCompactSize(|xs|) + WriteAll(xs, write)
  }

  function ReadVector<T>(s: Bytes, read: Bytes -> Option<Decoded<T>>): Option<Decoded<seq<T>>> {
    match ReadCompactSize(s)
    case None => None
    case Some(Decoded(n, t)) => ReadN(t, n, read)
  }

  lemma VectorRoundTrip<T(!new)>(xs: seq<T>, rest: Bytes, write: T -> Bytes,
                                 read: Bytes -> Option<Decoded<T>>, ok: T -> bool, norm: T -> T)
    requires Inverse(write, read, ok, norm)
    requires |xs| <= MAX_SIZE && forall i :: 0 <= i < |xs| ==> ok(xs[i])
    ensures ReadVector(WriteVector(xs, write) + rest, read) == Some(Decoded(MapSeq(xs, norm), rest))
  {
    assert WriteVector(xs, write) + rest == WriteCompactSize(|xs|) + (WriteAll(xs, write) + rest);
    CompactSizeRoundTrip(|xs|, WriteAll(xs, write) + rest);
    ReadNWriteAll(xs, rest, write, read, ok, norm);
  }

  // ---------------------------------------------------------------------------
  // std::map: the entry count, then key and value of each entry in ascending
  // key order. Reading inserts each entry unless its key is already present.

  /** The keys of a finite set in ascending order of an injective rank. */
  function Ascending<K(!new)>(keys: set<K>, rank: K -> int): seq<K>
    requires forall a, b :: a in keys && b in keys && rank(a) == rank(b) ==> a == b
    decreases |keys|
  {
    if keys == {} then []
    else
      var k := Least(keys, rank);
      [k] + Ascending(keys - {k}, rank)
  }

  /** Ascending lists every key exactly once. */
  lemma {:induction false} AscendingMembers<K(!new)>(keys: set<K>, rank: K -> int)
    requires forall a, b :: a in keys && b in keys && rank(a) == rank(b) ==> a == b
    ensures |Ascending(keys, rank)| == |keys|
    ensures forall k :: k in keys <==> k in Ascending(keys, rank)
    ensures forall i, j :: 0 <= i < j < |Ascending(keys, rank)| ==> Ascending(keys, rank)[i] != Ascending(keys, rank)[j]
    decreases |keys|
  {
    if keys != {} {
      var k := Least(keys, rank);
      var others := keys - {k};
      var tail := Ascending(others, rank);
      AscendingMembers(others, rank);
      var r := Ascending(keys, rank);
      assert r == [k] + tail;
      forall x ensures x in keys <==> x in r {
        if x != k {
          assert x in keys <==> x in others;
        }
      }
      forall i, j | 0 <= i < j < |r| ensures r[i] != r[j] {
        assert r[j] == tail[j - 1];
        if i == 0 {
          assert tail[j - 1] in others;
        } else {
          assert r[i] == tail[i - 1];
        }
      }
    }
  }

  lemma {:induction false} AscendingWithin<K(!new)>(keys: set<K>, rank: K -> int)
    requires forall a, b :: a in keys && b in keys && rank(a) == rank(b) ==> a == b
    ensures forall i :: 0 <= i < |Ascending(keys, rank)| ==> Ascending(keys, rank)[i] in keys
  {
    AscendingMembers(keys, rank);
  }

  /** Ascending lists the keys in strictly increasing rank. */
  lemma {:induction false} AscendingSorted<K(!new)>(keys: set<K>, rank: K -> int)
    requires forall a, b :: a in keys && b in keys && rank(a) == rank(b) ==> a == b
    ensures forall i, j :: 0 <= i < j < |Ascending(keys, rank)| ==>
              rank(Ascending(keys, rank)[i]) < rank(Ascending(keys, rank)[j])
    decreases |keys|
  {
    if keys != {} {
      var k := Least(keys, rank);
      var others := keys - {k};
      var tail := Ascending(others, rank);
      AscendingWithin(others, rank);
      AscendingSorted(others, rank);
      var r := Ascending(keys, rank);
      assert r == [k] + tail;
      forall i, j | 0 <= i < j < |r|
        ensures rank(r[i]) < rank(r[j])
      {
        var y := tail[j - 1];
        assert r[j] == y && y in others;
        if i == 0 {
          assert y in keys && y != k;
        } else {
          assert r[i] == tail[i - 1];
          assert rank(tail[i - 1]) < rank(y);
        }
      }
    }
  }

  /** The key of least rank. */
  function Least<K(!new)>(keys: set<K>, rank: K -> int): (k: K)
    requires keys != {}
    requires forall a, b :: a in keys && b in keys && rank(a) == rank(b) ==> a == b
    ensures k in keys && forall j :: j in keys && j != k ==> rank(k) < rank(j)
  {
    LeastExists(keys, rank);
    var k :| k in keys && forall j :: j in keys ==> rank(k) <= rank(j);
    k
  }

  lemma LeastExists<K>(keys: set<K>, rank: K -> int)
    requires keys != {}
    ensures exists k :: k in keys && forall j :: j in keys ==> rank(k) <= rank(j)
  {
    var k := LeastWitness(keys, rank);
    assert k in keys && forall j :: j in keys ==> rank(k) <= rank(j);
  }

  lemma LeastWitness<K>(keys: set<K>, rank: K -> int) returns (k: K)
    requires keys != {}
    ensures k in keys && forall j :: j in keys ==> rank(k) <= rank(j)
    decreases |keys|
  {
    var a :| a in keys;
    if keys == {a} {
      return a;
    }
    var b := LeastWitness(keys - {a}, rank);
    k := if rank(a) <= rank(b) then a else b;
    forall j | j in keys
      ensures rank(k) <= rank(j)
    {
      if j != a {
        assert j in keys - {a};
      }
    }
  }

  function WriteEntries<K, V>(m: map<K, V>, order: seq<K>, writeKey: K -> Bytes, writeValue: V -> Bytes): Bytes
    requires forall i :: 0 <= i < |order| ==> order[i] in m
  {
    if order == [] then []
    else writeKey(order[0]) + writeValue(m[order[0]]) + WriteEntries(m, order[1..], writeKey, writeValue)
  }

  function ReadEntries<K, V>(s: Bytes, n: nat, acc: map<K, V>,
                             readKey: Bytes -> Option<Decoded<K>>,
                             readValue: Bytes -> Option<Decoded<V>>): Option<Decoded<map<K, V>>>
    decreases n
  {
    if n == 0 then Some(Decoded(acc, s))
    else match readKey(s)
      case None => None
      case Some(Decoded(k, t)) =>
        match readValue(t)
        case None => None
        case Some(Decoded(v, u)) =>
          ReadEntries(u, n - 1, if k in acc then acc else acc[k := v], readKey, readValue)
  }

  function WriteMap<K(!new), V>(m: map<K, V>, rank: K -> int, writeKey: K -> Bytes, writeValue: V -> Bytes): Bytes
    requires forall a, b :: a in m && b in m && rank(a) == rank(b) ==> a == b
  {
    AscendingMembers(m.Keys, rank);
    WriteMapInOrder(m, Ascending(m.Keys, rank), writeKey, writeValue)
  }

  /** The entry count, then the entries in the given key order. */
  function WriteMapInOrder<K, V>(m: map<K, V>, order: seq<K>, writeKey: K -> Bytes, writeValue: V -> Bytes): Bytes
    requires forall i :: 0 <= i < |order| ==> order[i] in m
  {
    WriteCompactSize(|order|) + WriteEntries(m, order, writeKey, writeValue)
  }

  function ReadMap<K, V>(s: Bytes, readKey: Bytes -> Option<Decoded<K>>,
                         readValue: Bytes -> Option<Decoded<V>>): Option<Decoded<map<K, V>>>
  {
    match ReadCompactSize(s)
    case None => None
    case Some(Decoded(n, t)) => ReadEntries(t, n, map[], readKey, readValue)
  }

  function MapValues<K, V>(m: map<K, V>, f: V -> V): (r: map<K, V>)
    ensures r.Keys == m.Keys && forall k :: k in m ==> r[k] == f(m[k])
  {
    map k | k in m :: f(m[k])
  }

  /** The map that reading the entries of `order` into acc produces. */
  function Inserted<K, V>(acc: map<K, V>, m: map<K, V>, order: seq<K>, norm: V -> V): map<K, V>
    requires forall i :: 0 <= i < |order| ==> order[i] in m
    decreases |order|
  {
    if order == [] then acc
    else Inserted(if order[0] in acc then acc else acc[order[0] := norm(m[order[0]])], m, order[1..], norm)
  }

  ghost predicate KeyInverse<K(!new)>(write: K -> Bytes, read: Bytes -> Option<Decoded<K>>) {
    forall x, rest :: read(write(x) + rest) == Some(Decoded(x, rest))
  }

  lemma {:induction false} ReadEntriesWriteEntries<K(!new), V(!new)>(
    m: map<K, V>, order: seq<K>, acc: map<K, V>, rest: Bytes,
    writeKey: K -> Bytes, readKey: Bytes -> Option<Decoded<K>>,
    writeValue: V -> Bytes, readValue: Bytes -> Option<Decoded<V>>,
    okValue: V -> bool, norm: V -> V)
    requires KeyInverse(writeKey, readKey)
    requires Inverse(writeValue, readValue, okValue, norm)
    requires forall i :: 0 <= i < |order| ==> order[i] in m && okValue(m[order[i]])
    ensures ReadEntries(WriteEntries(m, order, writeKey, writeValue) + rest, |order|, acc, readKey, readValue)
         == Some(Decoded(Inserted(acc, m, order, norm), rest))
  {
    if order == [] {
      assert WriteEntries(m, order, writeKey, writeValue) + rest == rest;
    } else {
      var k := order[0];
      var afterValue := WriteEntries(m, order[1..], writeKey, writeValue) + rest;
      var afterKey := writeValue(m[k]) + afterValue;
      assert WriteEntries(m, order, writeKey, writeValue) + rest == writeKey(k) + afterKey;
      assert readKey(writeKey(k) + afterKey) == Some(Decoded(k, afterKey));
      assert readValue(writeValue(m[k]) + afterValue) == Some(Decoded(norm(m[k]), afterValue));
      ReadEntriesWriteEntries(m, order[1..], if k in acc then acc else acc[k := norm(m[k])], rest,
                              writeKey, readKey, writeValue, readValue, okValue, norm);
    }
  }

  /** Inserting distinct fresh keys adds exactly those keys. */
  lemma {:induction false} InsertedDistinct<K, V>(acc: map<K, V>, m: map<K, V>, order: seq<K>, norm: V -> V)
    requires forall i :: 0 <= i < |order| ==> order[i] in m && order[i] !in acc
    requires forall i, j :: 0 <= i < j < |order| ==> order[i] != order[j]
    ensures Inserted(acc, m, order, norm).Keys == acc.Keys + set i | 0 <= i < |order| :: order[i]
    ensures forall k :: k in acc ==> Inserted(acc, m, order, norm)[k] == acc[k]
    ensures forall i :: 0 <= i < |order| ==> Inserted(acc, m, order, norm)[order[i]] == norm(m[order[i]])
    decreases |order|
  {
    if order != [] {
      var k := order[0];
      var acc' := acc[k := norm(m[k])];
      forall i | 0 <= i < |order[1..]|
        ensures order[1..][i] in m && order[1..][i] !in acc'
      {
        assert order[1..][i] == order[i + 1] != order[0];
      }
      InsertedDistinct(acc', m, order[1..], norm);
      var tailKeys := set i | 0 <= i < |order[1..]| :: order[1..][i];
      var allKeys := set i | 0 <= i < |order| :: order[i];
      assert allKeys == {k} + tailKeys by {
        forall x | x in allKeys ensures x in {k} + tailKeys {
          var i :| 0 <= i < |order| && order[i] == x;
          if i > 0 { assert order[1..][i - 1] == x; }
        }
      }
      forall i | 0 <= i < |order|
        ensures Inserted(acc, m, order, norm)[order[i]] == norm(m[order[i]])
      {
        if i > 0 { assert order[1..][i - 1] == order[i]; }
      }
    }
  }

  /** Reading back the entries written in a given enumeration of the keys. */
  lemma EntriesRoundTrip<K(!new), V(!new)>(
    m: map<K, V>, order: seq<K>, rest: Bytes,
    writeKey: K -> Bytes, readKey: Bytes -> Option<Decoded<K>>,
    writeValue: V -> Bytes, readValue: Bytes -> Option<Decoded<V>>,
    okValue: V -> bool, norm: V -> V)
    requires forall k :: k in m <==> k in order
    requires forall i, j :: 0 <= i < j < |order| ==> order[i] != order[j]
    requires KeyInverse(writeKey, readKey)
    requires Inverse(writeValue, readValue, okValue, norm)
    requires forall k :: k in m ==> okValue(m[k])
    ensures ReadEntries(WriteEntries(m, order, writeKey, writeValue) + rest, |order|, map[], readKey, readValue)
         == Some(Decoded(MapValues(m, norm), rest))
  {
    var empty: map<K, V> := map[];
    ReadEntriesWriteEntries(m, order, empty, rest, writeKey, readKey, writeValue, readValue, okValue, norm);
    InsertedDistinct(empty, m, order, norm);
    var got := Inserted(empty, m, order, norm);
    assert got.Keys == m.Keys by {
      forall x | x in m ensures x in got {
        var i :| 0 <= i < |order| && order[i] == x;
      }
    }
    forall x | x in m ensures got[x] == norm(m[x]) {
      var i :| 0 <= i < |order| && order[i] == x;
    }
    assert got == MapValues(m, norm);
  }

  /** Reading back a map written in any enumeration of its keys. */
  lemma MapInOrderRoundTrip<K(!new), V(!new)>(
    m: map<K, V>, order: seq<K>, rest: Bytes,
    writeKey: K -> Bytes, readKey: Bytes -> Option<Decoded<K>>,
    writeValue: V -> Bytes, readValue: Bytes -> Option<Decoded<V>>,
    okValue: V -> bool, norm: V -> V)
    requires forall k :: k in m <==> k in order
    requires forall i, j :: 0 <= i < j < |order| ==> order[i] != order[j]
    requires |order| <= MAX_SIZE
    requires KeyInverse(writeKey, readKey)
    requires Inverse(writeValue, readValue, okValue, norm)
    requires forall k :: k in m ==> okValue(m[k])
    ensures ReadMap(WriteMapInOrder(m, order, writeKey, writeValue) + rest, readKey, readValue)
         == Some(Decoded(MapValues(m, norm), rest))
  {
    var body := WriteEntries(m, order, writeKey, writeValue);
    assert WriteMapInOrder(m, order, writeKey, writeValue) + rest == WriteCompactSize(|order|) + (body + rest);
    CompactSizeRoundTrip(|order|, body + rest);
    EntriesRoundTrip(m, order, rest, writeKey, readKey, writeValue, readValue, okValue, norm);
  }

  /** Reading back a written map gives the same keys, each with its value in
      normal form. */
  lemma MapRoundTrip<K(!new), V(!new)>(
    m: map<K, V>, rest: Bytes, rank: K -> int,
    writeKey: K -> Bytes, readKey: Bytes -> Option<Decoded<K>>,
    writeValue: V -> Bytes, readValue: Bytes -> Option<Decoded<V>>,
    okValue: V -> bool, norm: V -> V)
    requires forall a, b :: a in m && b in m && rank(a) == rank(b) ==> a == b
    requires KeyInverse(writeKey, readKey)
    requires Inverse(writeValue, readValue, okValue, norm)
    requires |m| <= MAX_SIZE && forall k :: k in m ==> okValue(m[k])
    ensures ReadMap(WriteMap(m, rank, writeKey, writeValue) + rest, readKey, readValue)
         == Some(Decoded(MapValues(m, norm), rest))
  {
    var order := Ascending(m.Keys, rank);
    AscendingMembers(m.Keys, rank);
    MapInOrderRoundTrip(m, order, rest, writeKey, readKey, writeValue, readValue, okValue, norm);
  }
}
