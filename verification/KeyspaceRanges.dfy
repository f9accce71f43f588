/** Which resource-group settings a keyspace's prefix read returns
    (`GroupSettingsPathPrefixBytes` and `LoadResourceGroups`,
    pd/client/resource_manager_client.go). */
module KeyspaceRanges {

  import opened Arithmetic
  import opened Keyspaces
  import opened PrefixRange

  const SETTINGS := "resource_group/settings"
  const KEYSPACE_SETTINGS := "resource_group/keyspace/settings/"

  function Digit(d: nat): char
    requires d < 10
  {
    '0' + d as char
  }

  /** `%d` of an unsigned number. */
  function Decimal(n: nat): string {
    if n < 10 then [Digit(n)] else Decimal(n / 10) + [Digit(n % 10)]
  }

  function Bytes(s: string): (b: seq<byte>)
    ensures |b| == |s|
  {
    seq(|s|, i requires 0 <= i < |s| => (s[i] as int % 256) as byte)
  }

  /** The prefix under which a client looks for its keyspace's settings. */
  function SettingsPrefix(id: nat): string {
    if id == NULL_KEYSPACE then SETTINGS else KEYSPACE_SETTINGS + Decimal(id)
  }

  /** The key under which the server stores the settings of the group with the
      given name. */
  function SettingsKey(id: nat, group: seq<byte>): seq<byte> {
    Bytes(SettingsPrefix(id)) + Bytes("/") + group
  }

  // ---------------------------------------------------------------------------
  // Prefixes of numerals
  // ---------------------------------------------------------------------------

  /** `b` with its last digits removed. */
  ghost predicate Truncates(a: nat, b: nat) {
    a == b || (b >= 10 && Truncates(a, b / 10))
  }

  function Pow10(j: nat): (p: nat)
    ensures p >= 1
  {
    if j == 0 then 1 else 10 * Pow10(j - 1)
  }

  lemma {:induction false} DecimalDigits(n: nat)
    ensures |Decimal(n)| >= 1 && forall i :: 0 <= i < |Decimal(n)| ==> '0' <= Decimal(n)[i] <= '9'
  {
    if n >= 10 { DecimalDigits(n / 10); }
  }

  lemma {:induction false} DecimalInjective(a: nat, b: nat)
    requires Decimal(a) == Decimal(b)
    ensures a == b
  {
    DecimalDigits(a / 10);
    DecimalDigits(b / 10);
    if a >= 10 && b >= 10 {
      var m, n := Decimal(a / 10), Decimal(b / 10);
      assert m == Decimal(a)[..|m|] && n == Decimal(b)[..|n|];
      assert Decimal(a)[|m|] == Digit(a % 10) && Decimal(b)[|n|] == Digit(b % 10);
      DecimalInjective(a / 10, b / 10);
    } else {
      assert Decimal(a)[0] == Decimal(b)[0];
    }
  }

  /** A numeral is a prefix of another exactly when removing digits from the end of
      the longer one gives the shorter. */
  lemma {:induction false} NumeralPrefixIff(a: nat, b: nat)
    ensures Decimal(a) <= Decimal(b) <==> Truncates(a, b)
    decreases b
  {
    DecimalDigits(a);
    if b >= 10 {
      var n := Decimal(b / 10);
      assert Decimal(b) == n + [Digit(b % 10)];
      NumeralPrefixIff(a, b / 10);
      if Decimal(a) <= Decimal(b) {
        if |Decimal(a)| == |Decimal(b)| {
          DecimalInjective(a, b);
        } else {
          assert Decimal(a) == Decimal(b)[..|Decimal(a)|] == n[..|Decimal(a)|];
        }
      }
    } else if Decimal(a) <= Decimal(b) {
      assert Decimal(a) == Decimal(b);
      DecimalInjective(a, b);
    }
  }

  /** `a` is `b` without its last `j` digits, and some digit is left. */
  ghost predicate Shortens(a: nat, b: nat, j: nat) {
    a == b / Pow10(j) && (j > 0 ==> a > 0)
  }

  lemma {:induction false} TruncatesShortens(a: nat, b: nat) returns (j: nat)
    requires Truncates(a, b)
    ensures Shortens(a, b, j)
    decreases b
  {
    if a == b {
      j := 0;
    } else {
      var i := TruncatesShortens(a, b / 10);
      DivideTwice(b, i);
      j := i + 1;
      if i == 0 {
        assert a == b / 10;
      }
    }
  }

  lemma {:induction false} ShortensTruncates(a: nat, b: nat, j: nat)
    requires Shortens(a, b, j)
    ensures Truncates(a, b)
    decreases j
  {
    if j > 0 {
      Pow10AtLeastTen(j);
      DivideTwice(b, j - 1);
      ShortensTruncates(a, b / 10, j - 1);
    } else {
      assert b / Pow10(0) == b;
    }
  }

  lemma {:induction false} Pow10AtLeastTen(j: nat)
    requires j > 0
    ensures Pow10(j) >= 10
  {
    if j > 1 { Pow10AtLeastTen(j - 1); }
  }

  lemma DivideTwice(b: nat, j: nat)
    ensures b / 10 / Pow10(j) == b / Pow10(j + 1)
  {
    var p := Pow10(j);
    var q := b / 10;
    var r := q / p;
    assert r * p <= q < r * p + p;
    assert 10 * q <= b < 10 * q + 10;
    var d := 10 * p;
    assert r * d == 10 * (r * p);
    assert r * d <= b < r * d + d;
    QuotientIs(b, d, r);
  }

  // ---------------------------------------------------------------------------
  // Prefixes of paths
  // ---------------------------------------------------------------------------

  lemma BytesOfDecimals(a: nat, b: nat)
    ensures Bytes(Decimal(a)) <= Bytes(Decimal(b)) <==> Decimal(a) <= Decimal(b)
  {
    DecimalDigits(a);
    DecimalDigits(b);
    BytesOfAscii(Decimal(a), Decimal(b));
  }

  lemma BytesOfAscii(d: string, e: string)
    requires forall i :: 0 <= i < |d| ==> d[i] <= '9'
    requires forall i :: 0 <= i < |e| ==> e[i] <= '9'
    ensures Bytes(d) <= Bytes(e) <==> d <= e
  {
    if |d| <= |e| {
      forall i | 0 <= i < |d|
        ensures Bytes(d)[i] == Bytes(e)[i] <==> d[i] == e[i]
      {
        assert Bytes(d)[i] as int == d[i] as int && Bytes(e)[i] as int == e[i] as int;
      }
    }
  }

  lemma BytesConcat(a: string, b: string)
    ensures Bytes(a + b) == Bytes(a) + Bytes(b)
  {
  }

  lemma SharedHead(h: seq<byte>, a: seq<byte>, b: seq<byte>)
    ensures h + a <= h + b <==> a <= b
  {
    if a <= b {
      assert h + b == (h + a) + b[|a|..];
    }
    if h + a <= h + b {
      forall i | 0 <= i < |a| ensures a[i] == b[i] {
        assert (h + a)[|h| + i] == (h + b)[|h| + i];
      }
    }
  }

  lemma DigitsBeforeSlash(a: nat, b: nat, group: seq<byte>)
    ensures Bytes(Decimal(a)) <= Bytes(Decimal(b)) + (Bytes("/") + group) <==> Bytes(Decimal(a)) <= Bytes(Decimal(b))
  {
    DecimalDigits(a);
    var d, e, f := Bytes(Decimal(a)), Bytes(Decimal(b)), Bytes("/") + group;
    assert f[0] == 47 && (e + f)[|e|] == 47;
    assert forall i :: 0 <= i < |d| ==> d[i] != 47;
    if d <= e + f {
      assert |d| <= |e|;
      assert d == (e + f)[..|d|] == e[..|d|];
    }
  }

  /** The two families of paths part at their sixteenth character. */
  lemma FamiliesDiffer(s: seq<byte>, t: seq<byte>)
    requires Bytes(SETTINGS) <= s && Bytes(KEYSPACE_SETTINGS) <= t
    ensures !(s <= t) && !(t <= s)
  {
    assert s[15] == Bytes(SETTINGS)[15];
    assert t[15] == Bytes(KEYSPACE_SETTINGS)[15];
  }

  lemma FamilyOf(id: nat, rest: seq<byte>)
    ensures id == NULL_KEYSPACE ==> Bytes(SETTINGS) <= Bytes(SettingsPrefix(id)) + rest
    ensures id != NULL_KEYSPACE ==>
              && Bytes(KEYSPACE_SETTINGS) <= Bytes(SettingsPrefix(id)) + rest
              && Bytes(SettingsPrefix(id)) + rest == Bytes(KEYSPACE_SETTINGS) + (Bytes(Decimal(id)) + rest)
  {
    BytesConcat(KEYSPACE_SETTINGS, Decimal(id));
  }

  /** The prefix of keyspace `a` starts the path of keyspace `b`, whatever follows
      the latter's own prefix, as long as that does not begin with a digit. */
  lemma PrefixOfPath(a: nat, b: nat, rest: seq<byte>)
    requires rest == [] || Bytes("/") <= rest
    ensures Bytes(SettingsPrefix(a)) <= Bytes(SettingsPrefix(b)) + rest <==>
            if a == NULL_KEYSPACE || b == NULL_KEYSPACE then a == b else Truncates(a, b)
  {
    var p, q := Bytes(SettingsPrefix(a)), Bytes(SettingsPrefix(b)) + rest;
    FamilyOf(a, []);
    FamilyOf(b, rest);
    assert p + [] == p;
    if a == NULL_KEYSPACE && b != NULL_KEYSPACE {
      FamiliesDiffer(p, q);
    } else if a != NULL_KEYSPACE && b == NULL_KEYSPACE {
      FamiliesDiffer(q, p);
    } else if a != NULL_KEYSPACE {
      SharedHead(Bytes(KEYSPACE_SETTINGS), Bytes(Decimal(a)) + [], Bytes(Decimal(b)) + rest);
      assert Bytes(Decimal(a)) + [] == Bytes(Decimal(a));
      if rest == [] {
        assert Bytes(Decimal(b)) + rest == Bytes(Decimal(b));
      } else {
        assert rest == Bytes("/") + rest[1..];
        DigitsBeforeSlash(a, b, rest[1..]);
      }
      BytesOfDecimals(a, b);
      NumeralPrefixIff(a, b);
    }
  }

  /** The null keyspace's range is disjoint from every numbered keyspace's; the
      ranges of two numbered keyspaces are nested exactly when one id is the other
      with digits removed from its end, and disjoint otherwise. */
  lemma SettingsRanges(a: nat, b: nat)
    ensures var p, q := Bytes(SettingsPrefix(a)), Bytes(SettingsPrefix(b));
            if a == NULL_KEYSPACE || b == NULL_KEYSPACE then (Overlap(p, q) <==> a == b)
            else (Contains(p, q) <==> Truncates(a, b)) && (Overlap(p, q) <==> Truncates(a, b) || Truncates(b, a))
  {
    var p, q := Bytes(SettingsPrefix(a)), Bytes(SettingsPrefix(b));
    assert p + [] == p && q + [] == q;
    PrefixOfPath(a, b, []);
    PrefixOfPath(b, a, []);
    RangesNestOrAreDisjoint(p, q);
  }

  /** A client of keyspace `a` that loads its resource groups gets a group of
      keyspace `b` exactly when `a` is `b` or, both being numbered, `b` with digits
      removed from its end. */
  lemma LoadsForeignGroupsIff(a: nat, b: nat, group: seq<byte>)
    ensures var prefix := Bytes(SettingsPrefix(a));
            InRange(prefix, PrefixEnd(prefix), SettingsKey(b, group)) <==>
            || a == b
            || (a != NULL_KEYSPACE && b != NULL_KEYSPACE && exists j: nat :: Shortens(a, b, j))
  {
    var rest := Bytes("/") + group;
    assert SettingsKey(b, group) == Bytes(SettingsPrefix(b)) + rest;
    RangeIsPrefix(Bytes(SettingsPrefix(a)), SettingsKey(b, group));
    PrefixOfPath(a, b, rest);
    if Truncates(a, b) {
      var j := TruncatesShortens(a, b);
    }
    if j: nat :| Shortens(a, b, j) {
      ShortensTruncates(a, b, j);
    }
  }

  /** The number that a string of digits stands for. */
  ghost function ValueOf(s: string): int {
    if s == "" then 0 else 10 * ValueOf(s[..|s| - 1]) + (s[|s| - 1] as int - '0' as int)
  }

  /** The numeral of an id stands for that id and has no leading zero. */
  lemma {:induction false} DecimalRoundTrip(n: nat)
    ensures ValueOf(Decimal(n)) == n
    ensures |Decimal(n)| >= 1 && (|Decimal(n)| > 1 ==> Decimal(n)[0] != '0') && (n > 0 ==> Decimal(n)[0] != '0')
  {
    if n >= 10 {
      DecimalRoundTrip(n / 10);
      var front := Decimal(n / 10);
      assert Decimal(n)[..|front|] == front;
    } else {
      assert [Digit(n)][..0] == "";
    }
  }

  /** The paths written out. */
  lemma PathsWrittenOut(id: nat, group: seq<byte>)
    ensures SettingsPrefix(0xFFFF_FFFF) == "resource_group/settings"
    ensures id != 0xFFFF_FFFF ==> SettingsPrefix(id) == "resource_group/keyspace/settings/" + Decimal(id)
    ensures SettingsKey(id, group) == Bytes(SettingsPrefix(id)) + [47] + group
  {
    assert Bytes("/") == [47];
  }

  /** Keyspace 1 reads the settings of keyspace 10 as its own. */
  lemma KeyspaceOneReadsTen(group: seq<byte>)
    ensures var prefix := Bytes(SettingsPrefix(1));
            InRange(prefix, PrefixEnd(prefix), SettingsKey(10, group))
  {
    LoadsForeignGroupsIff(1, 10, group);
    assert Shortens(1, 10, 1) by {
      assert Pow10(1) == 10 * Pow10(0);
    }
  }
}
