/** The end of a prefix range (`getPrefix`, pd/client/meta_storage_client.go), in
    etcd's convention: keys are ordered as byte strings, a range includes its start
    and excludes its end, and the end `{0}` means "no end". */
module PrefixRange {

  newtype byte = x: int | 0 <= x < 256

  const NO_END: seq<byte> := [0]

  /** The lexicographic order of byte strings. */
  predicate Less(a: seq<byte>, b: seq<byte>) {
    b != [] && (a == [] || a[0] < b[0] || (a[0] == b[0] && Less(a[1..], b[1..])))
  }

  predicate InRange(start: seq<byte>, end: seq<byte>, k: seq<byte>) {
    !Less(k, start) && (end == NO_END || Less(k, end))
  }

  /** The key with trailing 0xff bytes cut off and its last byte incremented. */
  function PrefixEnd(key: seq<byte>): seq<byte> {
    if key == [] then NO_END
    else
      var n := |key| - 1;
      if key[n] < 0xff then key[..n] + [key[n] + 1] else PrefixEnd(key[..n])
  }

  method GetPrefix(key: seq<byte>) returns (end: seq<byte>)
    ensures end == PrefixEnd(key)
  {
    var buf := new byte[|key|](i requires 0 <= i < |key| => key[i]);
    var i := |key| - 1;
    assert key[..|key|] == key;
    while i >= 0
      invariant -1 <= i < |key| == buf.Length
      invariant buf[..] == key
      invariant PrefixEnd(key[..i + 1]) == PrefixEnd(key)
    {
      assert key[..i + 1][..i] == key[..i];
      if buf[i] < 0xff {
        buf[i] := buf[i] + 1;
        end := buf[..i + 1];
        assert end == key[..i] + [key[i] + 1];
        return;
      }
      i := i - 1;
    }
    return [0];
  }

  // ---------------------------------------------------------------------------
  // The order
  // ---------------------------------------------------------------------------

  lemma {:induction false} LessIrreflexive(a: seq<byte>)
    ensures !Less(a, a)
  {
    if a != [] { LessIrreflexive(a[1..]); }
  }

  lemma {:induction false} LessTotal(a: seq<byte>, b: seq<byte>)
    ensures Less(a, b) || a == b || Less(b, a)
  {
    if a != [] && b != [] && a[0] == b[0] {
      LessTotal(a[1..], b[1..]);
      assert a == [a[0]] + a[1..] && b == [b[0]] + b[1..];
    }
  }

  lemma {:induction false} LessAsymmetric(a: seq<byte>, b: seq<byte>)
    requires Less(a, b)
    ensures !Less(b, a)
  {
    if a != [] && a[0] == b[0] { LessAsymmetric(a[1..], b[1..]); }
  }

  lemma {:induction false} ExtensionNotLess(a: seq<byte>, k: seq<byte>)
    requires a <= k
    ensures !Less(k, a)
  {
    if a != [] {
      assert a[1..] <= k[1..];
      ExtensionNotLess(a[1..], k[1..]);
    }
  }

  // ---------------------------------------------------------------------------
  // The end of a prefix range
  // ---------------------------------------------------------------------------

  ghost predicate AllFF(key: seq<byte>) {
    forall i :: 0 <= i < |key| ==> key[i] == 0xff
  }

  /** The end read from the front of the key. */
  lemma {:induction false} EndFromFront(key: seq<byte>)
    requires key != []
    ensures PrefixEnd(key) ==
            if !AllFF(key[1..]) then [key[0]] + PrefixEnd(key[1..])
            else if key[0] < 0xff then [key[0] + 1]
            else NO_END
    decreases |key|
  {
    var n := |key| - 1;
    if n == 0 {
      assert key[..0] == [];
    } else {
      var rest := key[1..];
      assert rest[..n - 1] == key[..n][1..];
      if key[n] < 0xff {
        assert rest[n - 1] == key[n];
        assert key[..n] + [key[n] + 1] == [key[0]] + (rest[..n - 1] + [key[n] + 1]);
      } else {
        EndFromFront(key[..n]);
        assert AllFF(rest) <==> AllFF(key[..n][1..]) by {
          assert rest == key[..n][1..] + [key[n]];
        }
        assert PrefixEnd(rest) == PrefixEnd(rest[..n - 1]);
      }
    }
  }

  /** There is no end exactly for the keys of 0xff bytes only, the empty one
      included; no other key's end could be mistaken for "no end". */
  lemma {:induction false} NoEndIff(key: seq<byte>)
    ensures PrefixEnd(key) == NO_END <==> AllFF(key)
    decreases |key|
  {
    if key != [] {
      EndFromFront(key);
      NoEndIff(key[1..]);
      if AllFF(key[1..]) {
        assert key == [key[0]] + key[1..];
      } else {
        assert |PrefixEnd(key)| >= 2 by { EndNotEmpty(key[1..]); }
      }
    }
  }

  lemma {:induction false} EndNotEmpty(key: seq<byte>)
    ensures PrefixEnd(key) != []
    decreases |key|
  {
    if key != [] { EndNotEmpty(key[..|key| - 1]); }
  }

  /** A key lies in the range from `key` to its computed end exactly when it has
      `key` as a prefix. */
  lemma {:induction false} RangeIsPrefix(key: seq<byte>, k: seq<byte>)
    ensures InRange(key, PrefixEnd(key), k) <==> key <= k
    decreases |key|
  {
    if key == [] {
    } else if k == [] {
    } else {
      EndFromFront(key);
      NoEndIff(key);
      NoEndIff(key[1..]);
      EndNotEmpty(key[1..]);
      RangeIsPrefix(key[1..], k[1..]);
      assert key <= k <==> key[0] == k[0] && key[1..] <= k[1..] by {
        assert key == [key[0]] + key[1..] && k == [k[0]] + k[1..];
      }
      var end := PrefixEnd(key);
      if !AllFF(key[1..]) {
        assert end[0] == key[0] && end[1..] == PrefixEnd(key[1..]);
      } else if key[0] < 0xff {
        assert end == [key[0] + 1];
        assert Less(k, end) <==> k[0] <= key[0] by { assert end[1..] == []; }
      }
    }
  }

  ghost predicate AboveAll(key: seq<byte>, u: seq<byte>) {
    forall k :: key <= k ==> Less(k, u)
  }

  /** The end is the least string above everything with the prefix; where there is
      none, no string is above them all. */
  lemma EndIsLeastAbove(key: seq<byte>, u: seq<byte>)
    ensures AllFF(key) ==> !AboveAll(key, u)
    ensures !AllFF(key) ==> (AboveAll(key, u) <==> !Less(u, PrefixEnd(key)))
  {
    NoEndIff(key);
    if AboveAll(key, u) {
      assert Less(key, u);
      LessAsymmetric(key, u);
      RangeIsPrefix(key, u);
      LessIrreflexive(u);
      assert !(key <= u);
    }
    if !AllFF(key) && !Less(u, PrefixEnd(key)) {
      forall k | key <= k ensures Less(k, u) {
        RangeIsPrefix(key, k);
        LessTotal(u, PrefixEnd(key));
        if u != PrefixEnd(key) {
          LessTransitive(k, PrefixEnd(key), u);
        }
      }
    }
  }

  lemma {:induction false} LessTransitive(a: seq<byte>, b: seq<byte>, c: seq<byte>)
    requires Less(a, b) && Less(b, c)
    ensures Less(a, c)
  {
    if a != [] && a[0] == b[0] == c[0] {
      LessTransitive(a[1..], b[1..], c[1..]);
    }
  }

  // ---------------------------------------------------------------------------
  // Two prefix ranges
  // ---------------------------------------------------------------------------

  ghost predicate Overlap(a: seq<byte>, b: seq<byte>) {
    exists k :: InRange(a, PrefixEnd(a), k) && InRange(b, PrefixEnd(b), k)
  }

  ghost predicate Contains(a: seq<byte>, b: seq<byte>) {
    forall k :: InRange(b, PrefixEnd(b), k) ==> InRange(a, PrefixEnd(a), k)
  }

  lemma BothPrefixes(a: seq<byte>, b: seq<byte>, k: seq<byte>)
    requires a <= k && b <= k
    ensures a <= b || b <= a
  {
  }

  /** Two prefix ranges are nested or disjoint, never partly overlapping: the range
      of `a` contains that of `b` exactly when `a` is a prefix of `b`. */
  lemma RangesNestOrAreDisjoint(a: seq<byte>, b: seq<byte>)
    ensures Contains(a, b) <==> a <= b
    ensures Overlap(a, b) <==> a <= b || b <= a
  {
    RangeIsPrefix(a, b);
    RangeIsPrefix(b, b);
    RangeIsPrefix(b, a);
    RangeIsPrefix(a, a);
    if a <= b {
      forall k | InRange(b, PrefixEnd(b), k) ensures InRange(a, PrefixEnd(a), k) {
        RangeIsPrefix(a, k);
        RangeIsPrefix(b, k);
      }
      assert InRange(a, PrefixEnd(a), b) && InRange(b, PrefixEnd(b), b);
    }
    if b <= a {
      assert InRange(a, PrefixEnd(a), a) && InRange(b, PrefixEnd(b), a);
    }
    if k :| InRange(a, PrefixEnd(a), k) && InRange(b, PrefixEnd(b), k) {
      RangeIsPrefix(a, k);
      RangeIsPrefix(b, k);
      BothPrefixes(a, b, k);
    }
  }
}
