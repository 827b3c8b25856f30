/** Byte-wise lexicographic order: the order of Go strings, and of the epoch keys in the chain store. */
module Order {
  import opened Base

  type Bytes = seq<nat>

  predicate Less(a: Bytes, b: Bytes) {
    if b == [] then false
    else if a == [] then true
    else a[0] < b[0] || (a[0] == b[0] && Less(a[1..], b[1..]))
  }

  lemma {:induction false} LessTotal(a: Bytes, b: Bytes)
    ensures Less(a, b) || a == b || Less(b, a)
    ensures !(Less(a, b) && Less(b, a)) && (Less(a, b) ==> a != b)
  {
    if a != [] && b != [] {
      LessTotal(a[1..], b[1..]);
      assert a == [a[0]] + a[1..] && b == [b[0]] + b[1..];
    }
  }

  lemma {:induction false} LessTrans(a: Bytes, b: Bytes, c: Bytes)
    requires Less(a, b) && Less(b, c)
    ensures Less(a, c)
  {
    if a != [] && a[0] == b[0] && b[0] == c[0] { LessTrans(a[1..], b[1..], c[1..]); }
  }

  /** makePageKey and the keeper's getTransactionKey: `n` in `width` bytes, most significant first. */
  function BigEndian(n: nat, width: nat): (r: Bytes)
    ensures |r| == width
  {
    if width == 0 then [] else BigEndian(n / 256, width - 1) + [n % 256]
  }

  lemma {:induction false} LessAppend(a: Bytes, b: Bytes, x: nat, y: nat)
    requires |a| == |b|
    ensures Less(a + [x], b + [y]) <==> Less(a, b) || (a == b && x < y)
  {
    if a != [] {
      assert (a + [x])[1..] == a[1..] + [x] && (b + [y])[1..] == b[1..] + [y];
      LessAppend(a[1..], b[1..], x, y);
      assert a == b <==> a[0] == b[0] && a[1..] == b[1..] by { assert a == [a[0]] + a[1..] && b == [b[0]] + b[1..]; }
    }
  }

  function Capacity(width: nat): nat {
    if width == 0 then 1 else 256 * Capacity(width - 1)
  }

  /** The byte order of the keys is the order of the epochs. */
  lemma {:induction false} BigEndianOrders(m: nat, n: nat, width: nat)
    requires m < Capacity(width) && n < Capacity(width)
    ensures Less(BigEndian(m, width), BigEndian(n, width)) <==> m < n
    ensures BigEndian(m, width) == BigEndian(n, width) <==> m == n
  {
    if width > 0 {
      var w := width - 1;
      assert m / 256 < Capacity(w) && n / 256 < Capacity(w);
      BigEndianOrders(m / 256, n / 256, w);
      var a, b := BigEndian(m / 256, w), BigEndian(n / 256, w);
      LessAppend(a, b, m % 256, n % 256);
      assert a + [m % 256] == b + [n % 256] <==> a == b && m % 256 == n % 256 by {
        assert (a + [m % 256])[..w] == a && (b + [n % 256])[..w] == b;
        assert (a + [m % 256])[w] == m % 256 && (b + [n % 256])[w] == n % 256;
      }
      assert m == 256 * (m / 256) + m % 256 && n == 256 * (n / 256) + n % 256;
    }
  }

  // ---------------------------------------------------------------- sorted key lists

  ghost predicate Ascending(s: seq<Bytes>) {
    forall i, j :: 0 <= i < j < |s| ==> Less(s[i], s[j])
  }

  function Place(x: Bytes, s: seq<Bytes>): seq<Bytes> {
    if s == [] || Less(x, s[0]) then [x] + s else [s[0]] + Place(x, s[1..])
  }

  lemma {:induction false} PlaceAscending(x: Bytes, s: seq<Bytes>)
    requires Ascending(s) && x !in s
    ensures Ascending(Place(x, s)) && forall y :: y in Place(x, s) <==> y == x || y in s
  {
    if s == [] {
    } else if Less(x, s[0]) {
      forall i | 0 <= i < |s| ensures Less(x, s[i]) { if i > 0 { LessTrans(x, s[0], s[i]); } }
    } else {
      LessTotal(x, s[0]);
      assert s[0] in s;
      PlaceAscending(x, s[1..]);
      var rest := Place(x, s[1..]);
      forall i | 0 <= i < |rest| ensures Less(s[0], rest[i]) {
        assert rest[i] in rest;
        if rest[i] != x { var k :| 0 <= k < |s[1..]| && s[1..][k] == rest[i]; assert s[k + 1] == rest[i]; }
      }
      assert s == [s[0]] + s[1..];
    }
  }

  /** sortMapKeys for string keys. */
  method SortedNames(keys: set<Bytes>) returns (r: seq<Bytes>)
    ensures Ascending(r) && forall k :: k in r <==> k in keys
  {
    r := [];
    var todo := keys;
    while todo != {}
      invariant todo <= keys && Ascending(r)
      invariant forall k :: k in r <==> k in keys && k !in todo
      decreases todo
    {
      var k :| k in todo;
      PlaceAscending(k, r);
      r, todo := Place(k, r), todo - {k};
    }
  }

  /** sortMapKeys for integer keys. */
  method SortedNumbers(keys: set<nat>) returns (r: seq<nat>)
    ensures Increasing(r) && forall k :: k in r <==> k in keys
  {
    r := [];
    var todo := keys;
    while todo != {}
      invariant todo <= keys && NoDup(r)
      invariant forall k :: k in r <==> k in keys && k !in todo
      decreases todo
    {
      var k :| k in todo;
      r, todo := r + [k], todo - {k};
    }
    SortNoDup(r);
    r := Sort(r);
  }
}
