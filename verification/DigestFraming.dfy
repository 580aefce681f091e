/** The bytes a restore check hashes for a collection of values: sorted, and each behind its length. */
module DigestFraming {
  type byte = b: int | 0 <= b < 256

  type bytes = seq<byte>

  // ----- Sorting -----

  /** The order of Python's bytes: the first difference decides, a prefix comes first. */
  predicate AtMost(a: bytes, b: bytes) {
    a == [] || (b != [] && (a[0] < b[0] || (a[0] == b[0] && AtMost(a[1..], b[1..]))))
  }

  lemma {:induction false} OrderIsTotal(a: bytes, b: bytes)
    ensures AtMost(a, b) || AtMost(b, a)
    ensures AtMost(a, b) && AtMost(b, a) ==> a == b
  {
    if a != [] && b != [] {
      OrderIsTotal(a[1..], b[1..]);
      assert a == [a[0]] + a[1..] && b == [b[0]] + b[1..];
    }
  }

  lemma {:induction false} OrderIsTransitive(a: bytes, b: bytes, c: bytes)
    requires AtMost(a, b) && AtMost(b, c)
    ensures AtMost(a, c)
  {
    if a != [] && a[0] == b[0] && b[0] == c[0] {
      OrderIsTransitive(a[1..], b[1..], c[1..]);
    }
  }

  predicate Ordered(values: seq<bytes>) {
    forall i, j :: 0 <= i < j < |values| ==> AtMost(values[i], values[j])
  }

  function Inserted(values: seq<bytes>, v: bytes): seq<bytes> {
    if values == [] || AtMost(v, values[0]) then [v] + values else [values[0]] + Inserted(values[1..], v)
  }

  /** `sorted(values)`. */
  function Sorted(values: seq<bytes>): seq<bytes> {
    if values == [] then [] else Inserted(Sorted(values[..|values| - 1]), values[|values| - 1])
  }

  lemma OrderedFrom(v: bytes, values: seq<bytes>)
    ensures Ordered([v] + values) <==> Ordered(values) && forall x :: x in values ==> AtMost(v, x)
  {
    var all := [v] + values;
    hide AtMost;
    if Ordered(all) {
      forall x | x in values ensures AtMost(v, x) {
        var i :| 0 <= i < |values| && values[i] == x;
        assert all[0] == v && all[i + 1] == x;
      }
      forall i, j | 0 <= i < j < |values| ensures AtMost(values[i], values[j]) {
        assert all[i + 1] == values[i] && all[j + 1] == values[j];
      }
    }
    if Ordered(values) && forall x :: x in values ==> AtMost(v, x) {
      forall i, j | 0 <= i < j < |all| ensures AtMost(all[i], all[j]) {
        assert all[j] == values[j - 1];
        assert i > 0 ==> all[i] == values[i - 1];
      }
    }
  }

  lemma {:induction false} InsertedKeeps(values: seq<bytes>, v: bytes)
    requires Ordered(values)
    ensures multiset(Inserted(values, v)) == multiset(values) + multiset{v} && Ordered(Inserted(values, v))
    ensures forall x :: x in Inserted(values, v) <==> x == v || x in values
  {
    hide Ordered, AtMost;
    OrderedFrom(v, values);
    if values != [] {
      var head, tail := values[0], values[1..];
      assert values == [head] + tail;
      OrderedFrom(head, tail);
      OrderIsTotal(v, head);
      if AtMost(v, head) {
        forall x | x in tail ensures AtMost(v, x) {
          OrderIsTransitive(v, head, x);
        }
      } else {
        InsertedKeeps(tail, v);
        OrderedFrom(head, Inserted(tail, v));
      }
    }
  }

  lemma {:induction false} SortedIsOrdered(values: seq<bytes>)
    ensures multiset(Sorted(values)) == multiset(values) && Ordered(Sorted(values))
  {
    if values != [] {
      var init, v := values[..|values| - 1], values[|values| - 1];
      SortedIsOrdered(init);
      InsertedKeeps(Sorted(init), v);
      assert values == init + [v];
    }
  }

  /** There is only one way to order a collection. */
  lemma {:induction false} OrderIsUnique(a: seq<bytes>, b: seq<bytes>)
    requires Ordered(a) && Ordered(b) && multiset(a) == multiset(b)
    ensures a == b
  {
    hide Ordered, AtMost;
    if a != [] && b != [] {
      TailOf(a);
      TailOf(b);
      FirstIsLeast(a, b[0]);
      FirstIsLeast(b, a[0]);
      OrderIsTotal(a[0], b[0]);
      OrderIsUnique(a[1..], b[1..]);
      assert a == [a[0]] + a[1..] && b == [b[0]] + b[1..];
    } else {
      assert |multiset(a)| == |a| && |multiset(b)| == |b|;
    }
  }

  lemma TailOf(values: seq<bytes>)
    requires values != []
    ensures values[0] in multiset(values) && multiset(values[1..]) == multiset(values) - multiset{values[0]}
    ensures Ordered(values) ==> Ordered(values[1..])
  {
    assert values == [values[0]] + values[1..];
  }

  lemma FirstIsLeast(values: seq<bytes>, v: bytes)
    requires Ordered(values) && values != [] && v in multiset(values)
    ensures AtMost(values[0], v)
  {
    var i :| 0 <= i < |values| && values[i] == v;
    OrderIsTotal(v, v);
  }

  // ----- Framing -----

  /** `n.to_bytes(count, "big")`. */
  function BigEndian(n: nat, count: nat): (r: bytes)
    ensures |r| == count
  {
    if count == 0 then [] else BigEndian(n / 256, count - 1) + [n % 256]
  }

  function BigEndianValue(s: bytes): nat {
    if s == [] then 0 else 256 * BigEndianValue(s[..|s| - 1]) + s[|s| - 1]
  }

  function Power(count: nat): nat {
    if count == 0 then 1 else 256 * Power(count - 1)
  }

  lemma {:induction false} BigEndianIsReadBack(n: nat, count: nat)
    requires n < Power(count)
    ensures BigEndianValue(BigEndian(n, count)) == n
  {
    if count > 0 {
      BigEndianIsReadBack(n / 256, count - 1);
      assert BigEndian(n, count)[..count - 1] == BigEndian(n / 256, count - 1);
    }
  }

  const LENGTH_LIMIT := 0x1_0000_0000_0000_0000

  lemma EightBytesSuffice(n: nat)
    requires n < LENGTH_LIMIT
    ensures BigEndianValue(BigEndian(n, 8)) == n
  {
    assert Power(4) == 0x1_0000_0000 && Power(8) == LENGTH_LIMIT;
    BigEndianIsReadBack(n, 8);
  }

  function Framed(values: seq<bytes>): bytes {
    if values == [] then []
    else
      var v := values[|values| - 1];
      Framed(values[..|values| - 1]) + BigEndian(|v|, 8) + v
  }

  predicate Encodable(values: seq<bytes>) {
    forall v :: v in values ==> |v| < LENGTH_LIMIT
  }

  /** `aggregate_digest` up to its hash function: the bytes that are fed to it, in order. */
  method AggregateDigest(values: seq<bytes>) returns (hashed: bytes)
    requires Encodable(values)
    ensures hashed == Framed(Sorted(values))
  {
    var ordered := Sorted(values);
    hashed := [];
    for i := 0 to |ordered|
      invariant hashed == Framed(ordered[..i])
    {
      assert ordered[..i + 1][..i] == ordered[..i];
      hashed := hashed + BigEndian(|ordered[i]|, 8);
      hashed := hashed + ordered[i];
    }
    assert ordered[..|ordered|] == ordered;
  }

  lemma {:induction false} FramedFirst(v: bytes, values: seq<bytes>)
    ensures Framed([v] + values) == BigEndian(|v|, 8) + v + Framed(values)
  {
    hide BigEndian;
    if values == [] {
      assert [v] + values == [v] && [v][..0] == [];
      assert [] + BigEndian(|v|, 8) + v == BigEndian(|v|, 8) + v + [];
    } else {
      var init, last := values[..|values| - 1], values[|values| - 1];
      assert ([v] + values)[..|values|] == [v] + init;
      FramedFirst(v, init);
    }
  }

  /** The framing can be taken apart again: no two sequences of values share their framed bytes. */
  lemma {:induction false} FramingIsInjective(a: seq<bytes>, b: seq<bytes>)
    requires Encodable(a) && Encodable(b) && Framed(a) == Framed(b)
    ensures a == b
    decreases |a|
  {
    hide BigEndian, BigEndianValue, Framed;
    if a != [] && b != [] {
      assert a == [a[0]] + a[1..] && b == [b[0]] + b[1..];
      FramedFirst(a[0], a[1..]);
      FramedFirst(b[0], b[1..]);
      EightBytesSuffice(|a[0]|);
      EightBytesSuffice(|b[0]|);
      assert BigEndian(|a[0]|, 8) == Framed(a)[..8] == Framed(b)[..8] == BigEndian(|b[0]|, 8);
      assert a[0] == Framed(a)[8..8 + |a[0]|] && b[0] == Framed(b)[8..8 + |b[0]|];
      assert Framed(a[1..]) == Framed(a)[8 + |a[0]|..] && Framed(b[1..]) == Framed(b)[8 + |b[0]|..];
      FramingIsInjective(a[1..], b[1..]);
    } else {
      FramedIsEmptyOnlyForNothing(a);
      FramedIsEmptyOnlyForNothing(b);
    }
  }

  lemma FramedIsEmptyOnlyForNothing(values: seq<bytes>)
    ensures Framed(values) == [] <==> values == []
  {}

  /** Two collections are hashed from the same bytes exactly when they hold the same values equally often. */
  lemma SameBytesExactlyWhenSameValues(a: seq<bytes>, b: seq<bytes>)
    requires Encodable(a) && Encodable(b)
    ensures Framed(Sorted(a)) == Framed(Sorted(b)) <==> multiset(a) == multiset(b)
  {
    SortedIsOrdered(a);
    SortedIsOrdered(b);
    hide Sorted, Framed;
    if multiset(a) == multiset(b) {
      OrderIsUnique(Sorted(a), Sorted(b));
    }
    if Framed(Sorted(a)) == Framed(Sorted(b)) {
      forall v | v in Sorted(a) ensures |v| < LENGTH_LIMIT {
        assert v in multiset(a);
      }
      forall v | v in Sorted(b) ensures |v| < LENGTH_LIMIT {
        assert v in multiset(b);
      }
      FramingIsInjective(Sorted(a), Sorted(b));
    }
  }
}
