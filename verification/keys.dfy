/**
 * Key derivation of the Redis buffer: how a record (a model tag plus a dict of
 * filters) and a column are turned into the Redis key of a counter, and how a
 * record is turned into the key of its hash of "extra" values.
 *
 * The filters arrive as a dict; here they are the sequence of (field, value)
 * pairs in the dict's iteration order, so that the effect of sorting them can
 * be stated and proved. md5 is a parameter `digest` of every key function.
 */
module Keys {

  /** A filter value: an instance of a model (reduced to its primary key) or
      any other value, already in the string form `unicode()` gives it. */
  datatype FilterValue = Instance(pk: int) | Scalar(text: string)

  type Filter = (string, FilterValue)

  /** Digits 0-9 only, with no leading zero except in "0" itself. */
  predicate DigitString(s: string)
  {
    |s| > 0 && (forall i :: 0 <= i < |s| ==> '0' <= s[i] <= '9') && (s[0] == '0' ==> |s| == 1)
  }

  /** The text Python prints for an integer: its digits, after a '-' when it
      is negative, and never "-0". */
  predicate CanonicalDecimal(s: string)
  {
    if |s| > 0 && s[0] == '-' then DigitString(s[1..]) && s[1..] != "0" else DigitString(s)
  }

  /** Decimal form of an integer, as Python's string formatting prints it;
      reading it back gives the integer, so distinct primary keys never
      render alike. */
  function Decimal(n: int): (r: string)
    ensures |r| > 0
    ensures CanonicalDecimal(r)
    ensures r[0] == '-' <==> n < 0
    ensures ParseDecimal(r) == n
  {
    if n < 0 then
      var digits := Digits(-n);
      assert ("-" + digits)[1..] == digits;
      assert digits != "0";
      "-" + digits
    else Digits(n)
  }

  /** Decimal digits of a natural number, most significant first. */
  function Digits(n: nat): (r: string)
    ensures |r| > 0
    ensures forall i :: 0 <= i < |r| ==> '0' <= r[i] <= '9'
    ensures r[0] == '0' ==> n == 0
    ensures DigitString(r)
    ensures ParseDigits(r) == n
    decreases n
  {
    var d := ('0' as int + n % 10) as char;
    if n < 10 then [d]
    else
      var init := Digits(n / 10);
      assert (init + [d])[..|init|] == init;
      init + [d]
  }

  /** The value of a string of decimal digits. */
  function ParseDigits(s: string): int
    decreases |s|
  {
    if |s| == 0 then 0 else ParseDigits(s[..|s| - 1]) * 10 + (s[|s| - 1] as int - '0' as int)
  }

  /** The value of an optionally signed decimal string. */
  function ParseDecimal(s: string): int
  {
    if |s| > 0 && s[0] == '-' then -ParseDigits(s[1..]) else ParseDigits(s)
  }

  lemma {:induction false} ParseDigitsBounds(s: string)
    requires DigitString(s)
    ensures ParseDigits(s) >= 0
    ensures s[0] != '0' ==> ParseDigits(s) >= 1
    ensures ParseDigits(s) < 10 ==> |s| == 1
    decreases |s|
  {
    if |s| > 1 {
      var init := s[..|s| - 1];
      assert init[0] == s[0] != '0';
      ParseDigitsBounds(init);
    }
  }

  /** Only one digit string without a leading zero reads back as a given
      number. */
  lemma {:induction false} DigitsUnique(s: string, t: string)
    requires DigitString(s) && DigitString(t)
    requires ParseDigits(s) == ParseDigits(t)
    ensures s == t
    decreases |s|
  {
    ParseDigitsBounds(s);
    ParseDigitsBounds(t);
    var a, b := s[..|s| - 1], t[..|t| - 1];
    if |s| > 1 && |t| > 1 {
      assert a[0] == s[0] != '0' && b[0] == t[0] != '0';
      ParseDigitsBounds(a);
      ParseDigitsBounds(b);
      DigitsUnique(a, b);
      assert s == a + [s[|s| - 1]] && t == b + [t[|t| - 1]];
    }
  }

  /** Every canonical decimal text is the one `Decimal` prints for the
      number it reads back as: the primary key's text is determined. */
  lemma DecimalUnique(s: string)
    requires CanonicalDecimal(s)
    ensures s == Decimal(ParseDecimal(s))
  {
    if |s| > 0 && s[0] == '-' {
      var digits := s[1..];
      ParseDigitsBounds(digits);
      assert digits[0] != '0';
      DigitsUnique(digits, Digits(ParseDigits(digits)));
      assert s == "-" + digits;
    } else {
      ParseDigitsBounds(s);
      DigitsUnique(s, Digits(ParseDigits(s)));
    }
  }

  /** `_map_column`: the text a filter value contributes to the canonical
      filter string. Any value but a model instance is already its text; an
      instance becomes the canonical decimal text of its primary key, the
      only such text that reads back as that key. */
  function MapColumn(v: FilterValue): (r: string)
    ensures v.Scalar? ==> r == v.text
    ensures v.Instance? ==> CanonicalDecimal(r) && ParseDecimal(r) == v.pk
    ensures v.Instance? ==> r == Decimal(v.pk)
  {
    match v
    case Instance(pk) => Decimal(pk)
    case Scalar(text) => text
  }

  // ---------------------------------------------------------------------
  // Ordering of field names: Python compares strings code point by code point.

  predicate LexLeq(a: string, b: string)
  {
    |a| == 0 || (|b| > 0 && (a[0] < b[0] || (a[0] == b[0] && LexLeq(a[1..], b[1..]))))
  }

  lemma {:induction false} LexLeqReflexive(a: string)
    ensures LexLeq(a, a)
  {
    if |a| > 0 { LexLeqReflexive(a[1..]); }
  }

  lemma {:induction false} LexLeqTotal(a: string, b: string)
    ensures LexLeq(a, b) || LexLeq(b, a)
  {
    if |a| > 0 && |b| > 0 && a[0] == b[0] { LexLeqTotal(a[1..], b[1..]); }
  }

  lemma {:induction false} LexLeqAntisymmetric(a: string, b: string)
    requires LexLeq(a, b) && LexLeq(b, a)
    ensures a == b
  {
    if |a| > 0 && |b| > 0 {
      LexLeqAntisymmetric(a[1..], b[1..]);
      assert a == [a[0]] + a[1..] && b == [b[0]] + b[1..];
    }
  }

  lemma {:induction false} LexLeqTransitive(a: string, b: string, c: string)
    requires LexLeq(a, b) && LexLeq(b, c)
    ensures LexLeq(a, c)
  {
    if |a| > 0 && a[0] == b[0] && b[0] == c[0] {
      LexLeqTransitive(a[1..], b[1..], c[1..]);
    }
  }

  // ---------------------------------------------------------------------
  // Sorting the filter items by field name.

  /** Field names ascending. */
  ghost predicate SortedByField(s: seq<Filter>)
  {
    forall i, j :: 0 <= i < j < |s| ==> LexLeq(s[i].0, s[j].0)
  }

  /** The pairs come from a dict: a field name occurs with one value only. */
  ghost predicate FieldsFunctional(s: seq<Filter>)
  {
    forall p, q :: p in s && q in s && p.0 == q.0 ==> p == q
  }

  function Insert(x: Filter, s: seq<Filter>): (r: seq<Filter>)
    ensures multiset(r) == multiset(s) + multiset{x}
  {
    if |s| == 0 then [x]
    else if LexLeq(x.0, s[0].0) then [x] + s
    else
      assert s == [s[0]] + s[1..];
      [s[0]] + Insert(x, s[1..])
  }

  /** Prepending a field no greater than every other keeps the order. */
  lemma PrependLeast(y: Filter, s: seq<Filter>)
    requires SortedByField(s)
    requires forall z :: z in multiset(s) ==> LexLeq(y.0, z.0)
    ensures SortedByField([y] + s)
  {
    forall i, j | 0 <= i < j < |[y] + s| ensures LexLeq(([y] + s)[i].0, ([y] + s)[j].0) {
      if i == 0 { assert ([y] + s)[j] == s[j - 1] && s[j - 1] in multiset(s); }
    }
  }

  lemma {:induction false} InsertSorted(x: Filter, s: seq<Filter>)
    requires SortedByField(s)
    ensures SortedByField(Insert(x, s))
  {
    if |s| == 0 {
    } else if LexLeq(x.0, s[0].0) {
      forall z: Filter | z in multiset(s) ensures LexLeq(x.0, z.0) {
        HeadIsLeast(s, z);
        LexLeqTransitive(x.0, s[0].0, z.0);
      }
      PrependLeast(x, s);
    } else {
      var rest := Insert(x, s[1..]);
      assert SortedByField(s[1..]) by {
        forall i, j | 0 <= i < j < |s[1..]| ensures LexLeq(s[1..][i].0, s[1..][j].0) {
          assert s[1..][i] == s[i + 1] && s[1..][j] == s[j + 1];
        }
      }
      InsertSorted(x, s[1..]);
      LexLeqTotal(x.0, s[0].0);
      forall z: Filter | z in multiset(rest) ensures LexLeq(s[0].0, z.0) {
        if z != x {
          assert z in multiset(s[1..]);
          assert z in s;
          HeadIsLeast(s, z);
        }
      }
      PrependLeast(s[0], rest);
    }
  }

  /** `sorted()` applied to the filter pairs, as an insertion sort on field names. */
  function SortByField(s: seq<Filter>): (r: seq<Filter>)
    ensures multiset(r) == multiset(s)
    ensures SortedByField(r)
  {
    if |s| == 0 then [] else
    assert s == [s[0]] + s[1..];
    InsertSorted(s[0], SortByField(s[1..]));
    Insert(s[0], SortByField(s[1..]))
  }

  lemma HeadIsLeast(s: seq<Filter>, x: Filter)
    requires SortedByField(s) && x in s
    ensures LexLeq(s[0].0, x.0)
  {
    var i :| 0 <= i < |s| && s[i] == x;
    if i == 0 { LexLeqReflexive(x.0); }
  }

  lemma TailFunctional(s: seq<Filter>)
    requires |s| > 0 && FieldsFunctional(s)
    ensures FieldsFunctional(s[1..])
  {
    forall p, q | p in s[1..] && q in s[1..] && p.0 == q.0 ensures p == q {
      assert p in s && q in s;
    }
  }

  lemma TailMultiset(a: seq<Filter>, b: seq<Filter>)
    requires |a| > 0 && |b| > 0 && a[0] == b[0] && multiset(a) == multiset(b)
    ensures multiset(a[1..]) == multiset(b[1..])
  {
    assert a == [a[0]] + a[1..] && b == [b[0]] + b[1..];
    assert multiset(a) == multiset{a[0]} + multiset(a[1..]);
    assert multiset(b) == multiset{b[0]} + multiset(b[1..]);
    assert multiset(a[1..]) == multiset(a) - multiset{a[0]};
    assert multiset(b[1..]) == multiset(b) - multiset{b[0]};
  }

  /** Two field-sorted arrangements of the same dict items are the same sequence. */
  lemma {:induction false} SortedArrangementUnique(a: seq<Filter>, b: seq<Filter>)
    requires SortedByField(a) && SortedByField(b)
    requires multiset(a) == multiset(b)
    requires FieldsFunctional(a)
    ensures a == b
  {
    if |a| == 0 {
      assert |multiset(b)| == 0;
    } else {
      assert |b| == |multiset(b)| == |multiset(a)| == |a|;
      assert a[0] in multiset(b) && b[0] in multiset(a);
      HeadIsLeast(a, b[0]);
      HeadIsLeast(b, a[0]);
      LexLeqAntisymmetric(a[0].0, b[0].0);
      assert a[0] == b[0];
      TailMultiset(a, b);
      TailFunctional(a);
      SortedArrangementUnique(a[1..], b[1..]);
      assert a == [a[0]] + a[1..] && b == [b[0]] + b[1..];
    }
  }

  // ---------------------------------------------------------------------
  // The canonical filter string: `field=value` items joined by '&'.

  function Render(p: Filter): string
  {
    p.0 + "=" + MapColumn(p.1)
  }

  function JoinRendered(s: seq<Filter>): string
  {
    if |s| == 0 then ""
    else if |s| == 1 then Render(s[0])
    else Render(s[0]) + "&" + JoinRendered(s[1..])
  }

  /** The canonical filter string that is digested. */
  function CanonicalFilters(filters: seq<Filter>): string
  {
    JoinRendered(SortByField(filters))
  }

  /** The canonical filter string is the items of the dict joined in field
      order, whichever field-sorted arrangement of them is taken. */
  lemma CanonicalFiltersSorted(filters: seq<Filter>, s: seq<Filter>)
    requires FieldsFunctional(filters)
    requires SortedByField(s) && multiset(s) == multiset(filters)
    ensures CanonicalFilters(filters) == JoinRendered(s)
  {
    var a := SortByField(filters);
    forall p, q | p in a && q in a && p.0 == q.0 ensures p == q {
      assert p in multiset(filters) && q in multiset(filters);
    }
    SortedArrangementUnique(a, s);
  }

  /** `_make_key`: `<tag>:<hex digest>:<column>`. */
  function CounterKey(digest: string -> string, tag: string, filters: seq<Filter>, column: string): string
  {
    tag + ":" + digest(CanonicalFilters(filters)) + ":" + column
  }

  /** `_make_extra_key`: `<tag>:extra:<hex digest>`. */
  function ExtraKey(digest: string -> string, tag: string, filters: seq<Filter>): string
  {
    tag + ":extra:" + digest(CanonicalFilters(filters))
  }

  /** A counter key is the tag, ':', the digest of the record's canonical
      filter string, ':' and the column, each read back at its place. */
  lemma CounterKeyLayout(digest: string -> string, tag: string, filters: seq<Filter>, column: string)
    ensures var k, d := CounterKey(digest, tag, filters, column), digest(CanonicalFilters(filters));
            |k| == |tag| + |d| + |column| + 2 && k[..|tag|] == tag && k[|tag|] == ':' &&
            k[|tag| + 1..|tag| + 1 + |d|] == d && k[|tag| + 1 + |d|] == ':' && k[|tag| + 2 + |d|..] == column
  {
    ColonSeparated(tag, digest(CanonicalFilters(filters)), column);
  }

  lemma ColonSeparated(t: string, d: string, c: string)
    ensures var k := t + ":" + d + ":" + c;
            |k| == |t| + |d| + |c| + 2 && k[..|t|] == t && k[|t|] == ':' &&
            k[|t| + 1..|t| + 1 + |d|] == d && k[|t| + 1 + |d|] == ':' && k[|t| + 2 + |d|..] == c
  {
    var rest := d + (":" + c);
    var k := t + (":" + rest);
    assert t + ":" + d + ":" + c == k;
    assert k[..|t|] == t;
    assert k[|t| + 1..] == rest;
    assert rest[..|d|] == d && rest[|d| + 1..] == c;
  }

  /** An extra key is the tag, ":extra:" and the same digest as the
      record's counter keys, each read back at its place. */
  lemma ExtraKeyLayout(digest: string -> string, tag: string, filters: seq<Filter>)
    ensures var k, d := ExtraKey(digest, tag, filters), digest(CanonicalFilters(filters));
            |k| == |tag| + 7 + |d| && k[..|tag|] == tag && k[|tag|..|tag| + 7] == ":extra:" && k[|tag| + 7..] == d
  {
    var d := digest(CanonicalFilters(filters));
    assert ExtraKey(digest, tag, filters) == tag + (":extra:" + d);
  }

  /** Within one record, distinct columns have distinct counter keys. */
  lemma CounterKeyColumnInjective(digest: string -> string, tag: string, filters: seq<Filter>, c1: string, c2: string)
    ensures CounterKey(digest, tag, filters, c1) == CounterKey(digest, tag, filters, c2) <==> c1 == c2
  {
    var prefix := tag + ":" + digest(CanonicalFilters(filters)) + ":";
    assert CounterKey(digest, tag, filters, c1) == prefix + c1;
    assert CounterKey(digest, tag, filters, c2) == prefix + c2;
    assert (prefix + c1)[|prefix|..] == c1 && (prefix + c2)[|prefix|..] == c2;
  }

  // ---------------------------------------------------------------------
  // Determinism: the dict's iteration order does not matter.

  /** Any two iteration orders of the same dict give the same canonical string,
      hence the same counter and extra keys. */
  lemma FilterOrderIrrelevant(f1: seq<Filter>, f2: seq<Filter>)
    requires multiset(f1) == multiset(f2)
    requires FieldsFunctional(f1)
    ensures CanonicalFilters(f1) == CanonicalFilters(f2)
    ensures forall digest, tag, column ::
      CounterKey(digest, tag, f1, column) == CounterKey(digest, tag, f2, column)
    ensures forall digest, tag :: ExtraKey(digest, tag, f1) == ExtraKey(digest, tag, f2)
  {
    var s1, s2 := SortByField(f1), SortByField(f2);
    forall p, q | p in s1 && q in s1 && p.0 == q.0 ensures p == q {
      assert p in multiset(f1) && q in multiset(f1);
    }
    SortedArrangementUnique(s1, s2);
  }

  /** Neither '&' nor '=' is escaped in the canonical filter string, so two
      different filter dicts can render alike and then share every key: the
      one-item dict {a: "1&b=2"} and the two-item dict {a: "1", b: "2"}. */
  lemma CanonicalStringAmbiguous(digest: string -> string, tag: string, column: string)
    ensures var f1, f2 := [("a", Scalar("1&b=2"))], [("a", Scalar("1")), ("b", Scalar("2"))];
            multiset(f1) != multiset(f2) && CanonicalFilters(f1) == CanonicalFilters(f2) &&
            CounterKey(digest, tag, f1, column) == CounterKey(digest, tag, f2, column) &&
            ExtraKey(digest, tag, f1) == ExtraKey(digest, tag, f2)
  {
    var f1, f2 := [("a", Scalar("1&b=2"))], [("a", Scalar("1")), ("b", Scalar("2"))];
    assert |multiset(f1)| != |multiset(f2)|;
    OneItemRendering();
    TwoItemRendering();
  }

  lemma OneItemRendering()
    ensures CanonicalFilters([("a", Scalar("1&b=2"))]) == "a=1&b=2"
  {
    var f := [("a", Scalar("1&b=2"))];
    CanonicalFiltersSorted(f, f);
    assert JoinRendered(f) == "a" + "=" + "1&b=2";
  }

  lemma TwoItemRendering()
    ensures CanonicalFilters([("a", Scalar("1")), ("b", Scalar("2"))]) == "a=1&b=2"
  {
    var f := [("a", Scalar("1")), ("b", Scalar("2"))];
    TwoItemsSorted();
    CanonicalFiltersSorted(f, f);
    assert JoinRendered(f[1..]) == Render(f[1]) == "b=2";
    assert Render(f[0]) == "a=1";
  }

  lemma TwoItemsSorted()
    ensures SortedByField([("a", Scalar("1")), ("b", Scalar("2"))])
    ensures FieldsFunctional([("a", Scalar("1")), ("b", Scalar("2"))])
  {
    var f := [("a", Scalar("1")), ("b", Scalar("2"))];
    assert LexLeq("a", "b") by { assert "a"[0] < "b"[0]; }
    assert "a" != "b" by { assert "a"[0] != "b"[0]; }
    assert forall p :: p in f ==> p == f[0] || p == f[1];
  }

  /** Filtering by a model instance or by its primary key's string form
      addresses the same record. */
  lemma InstanceFilterIsItsPk(f: seq<Filter>, i: int, pk: int)
    requires 0 <= i < |f| && f[i].1 == Instance(pk)
    ensures forall digest, tag, column ::
      CounterKey(digest, tag, f, column) == CounterKey(digest, tag, f[i := (f[i].0, Scalar(Decimal(pk)))], column)
    ensures forall digest, tag ::
      ExtraKey(digest, tag, f) == ExtraKey(digest, tag, f[i := (f[i].0, Scalar(Decimal(pk)))])
  {
    var g := f[i := (f[i].0, Scalar(Decimal(pk)))];
    assert SameRendering(f, g);
    SortKeepsRendering(f, g);
    JoinKeepsRendering(SortByField(f), SortByField(g));
  }

  /** Position by position, the same field names and the same rendered values. */
  ghost predicate SameRendering(s: seq<Filter>, t: seq<Filter>)
  {
    |s| == |t| && forall i :: 0 <= i < |s| ==> s[i].0 == t[i].0 && MapColumn(s[i].1) == MapColumn(t[i].1)
  }

  lemma RenderingCons(a: Filter, s: seq<Filter>, b: Filter, t: seq<Filter>)
    requires a.0 == b.0 && MapColumn(a.1) == MapColumn(b.1) && SameRendering(s, t)
    ensures SameRendering([a] + s, [b] + t)
  {
    forall i | 0 <= i < |[a] + s|
      ensures ([a] + s)[i].0 == ([b] + t)[i].0 && MapColumn(([a] + s)[i].1) == MapColumn(([b] + t)[i].1)
    {
      if i > 0 { assert ([a] + s)[i] == s[i - 1] && ([b] + t)[i] == t[i - 1]; }
    }
  }

  lemma RenderingTail(s: seq<Filter>, t: seq<Filter>)
    requires SameRendering(s, t) && |s| > 0
    ensures SameRendering(s[1..], t[1..])
  {
    forall i | 0 <= i < |s| - 1
      ensures s[1..][i].0 == t[1..][i].0 && MapColumn(s[1..][i].1) == MapColumn(t[1..][i].1)
    {
      assert s[1..][i] == s[i + 1] && t[1..][i] == t[i + 1];
    }
  }

  lemma {:induction false} InsertKeepsRendering(x: Filter, s: seq<Filter>, y: Filter, t: seq<Filter>)
    requires x.0 == y.0 && MapColumn(x.1) == MapColumn(y.1) && SameRendering(s, t)
    ensures SameRendering(Insert(x, s), Insert(y, t))
  {
    if |s| == 0 {
      assert Insert(x, s) == [x] && Insert(y, t) == [y];
    } else if LexLeq(x.0, s[0].0) {
      assert Insert(x, s) == [x] + s && Insert(y, t) == [y] + t;
      RenderingCons(x, s, y, t);
    } else {
      RenderingTail(s, t);
      InsertKeepsRendering(x, s[1..], y, t[1..]);
      assert Insert(x, s) == [s[0]] + Insert(x, s[1..]);
      assert Insert(y, t) == [t[0]] + Insert(y, t[1..]);
      RenderingCons(s[0], Insert(x, s[1..]), t[0], Insert(y, t[1..]));
    }
  }

  lemma {:induction false} SortKeepsRendering(s: seq<Filter>, t: seq<Filter>)
    requires SameRendering(s, t)
    ensures SameRendering(SortByField(s), SortByField(t))
  {
    if |s| > 0 {
      RenderingTail(s, t);
      SortKeepsRendering(s[1..], t[1..]);
      InsertKeepsRendering(s[0], SortByField(s[1..]), t[0], SortByField(t[1..]));
    }
  }

  lemma {:induction false} JoinKeepsRendering(s: seq<Filter>, t: seq<Filter>)
    requires SameRendering(s, t)
    ensures JoinRendered(s) == JoinRendered(t)
  {
    if |s| > 1 {
      RenderingTail(s, t);
      JoinKeepsRendering(s[1..], t[1..]);
      assert Render(s[0]) == Render(t[0]);
    } else if |s| == 1 {
      assert Render(s[0]) == Render(t[0]);
    }
  }

  // ---------------------------------------------------------------------
  // Shape of the keys: the tag and the digest are read back from a key.

  predicate ColonFree(s: string)
  {
    forall i :: 0 <= i < |s| ==> s[i] != ':'
  }

  /** What `hexdigest()` of md5 returns: 32 lower-case hexadecimal digits. */
  predicate IsHexDigest(s: string)
  {
    |s| == 32 && forall i :: 0 <= i < |s| ==> s[i] in "0123456789abcdef"
  }

  /** Index of the first ':' in `s`, or |s| when there is none. */
  function ColonIndex(s: string): (r: nat)
    ensures r <= |s|
  {
    if |s| == 0 || s[0] == ':' then 0 else 1 + ColonIndex(s[1..])
  }

  lemma {:induction false} ColonIndexAfter(t: string, r: string)
    requires ColonFree(t) && |r| > 0 && r[0] == ':'
    ensures ColonIndex(t + r) == |t|
  {
    if |t| > 0 {
      assert (t + r)[1..] == t[1..] + r;
      ColonIndexAfter(t[1..], r);
    }
  }

  /** A colon-free tag followed by ':' is read back from the key. */
  lemma TagPrefix(t1: string, r1: string, t2: string, r2: string)
    requires ColonFree(t1) && ColonFree(t2)
    requires |r1| > 0 && |r2| > 0 && r1[0] == ':' && r2[0] == ':'
    ensures t1 + r1 == t2 + r2 <==> t1 == t2 && r1 == r2
  {
    ColonIndexAfter(t1, r1);
    ColonIndexAfter(t2, r2);
    if t1 + r1 == t2 + r2 {
      assert t1 == (t1 + r1)[..|t1|] && t2 == (t2 + r2)[..|t2|];
      assert r1 == (t1 + r1)[|t1|..] && r2 == (t2 + r2)[|t2|..];
    }
  }

  lemma DigestColumnSplit(d1: string, c1: string, d2: string, c2: string)
    requires |d1| == |d2|
    ensures ":" + d1 + ":" + c1 == ":" + d2 + ":" + c2 <==> d1 == d2 && c1 == c2
  {
    var r1, r2 := ":" + d1 + ":" + c1, ":" + d2 + ":" + c2;
    if r1 == r2 {
      assert d1 == r1[1..|d1| + 1] && d2 == r2[1..|d2| + 1];
      assert c1 == r1[|d1| + 2..] && c2 == r2[|d2| + 2..];
    }
  }

  /** The string shape of a counter key: a colon-free tag and a digest of
      known length are read back from it. */
  lemma CounterKeyParts(t1: string, d1: string, c1: string, t2: string, d2: string, c2: string)
    requires ColonFree(t1) && ColonFree(t2) && |d1| == |d2|
    ensures t1 + ":" + d1 + ":" + c1 == t2 + ":" + d2 + ":" + c2 <==> t1 == t2 && d1 == d2 && c1 == c2
  {
    var r1, r2 := ":" + d1 + ":" + c1, ":" + d2 + ":" + c2;
    assert t1 + ":" + d1 + ":" + c1 == t1 + r1;
    assert t2 + ":" + d2 + ":" + c2 == t2 + r2;
    TagPrefix(t1, r1, t2, r2);
    DigestColumnSplit(d1, c1, d2, c2);
  }

  /** With colon-free tags and hexadecimal digests, a counter key determines
      its tag, its filter digest and its column, and conversely. */
  lemma CounterKeyInjective(digest: string -> string, t1: string, f1: seq<Filter>, c1: string,
                            t2: string, f2: seq<Filter>, c2: string)
    requires ColonFree(t1) && ColonFree(t2)
    requires forall s :: IsHexDigest(digest(s))
    ensures CounterKey(digest, t1, f1, c1) == CounterKey(digest, t2, f2, c2) <==>
            t1 == t2 && digest(CanonicalFilters(f1)) == digest(CanonicalFilters(f2)) && c1 == c2
  {
    var d1, d2 := digest(CanonicalFilters(f1)), digest(CanonicalFilters(f2));
    assert IsHexDigest(d1) && IsHexDigest(d2);
    CounterKeyParts(t1, d1, c1, t2, d2, c2);
  }

  /** With colon-free tags, an extra key determines its tag and its filter
      digest, and conversely. */
  lemma ExtraKeyInjective(digest: string -> string, t1: string, f1: seq<Filter>, t2: string, f2: seq<Filter>)
    requires ColonFree(t1) && ColonFree(t2)
    ensures ExtraKey(digest, t1, f1) == ExtraKey(digest, t2, f2) <==>
            t1 == t2 && digest(CanonicalFilters(f1)) == digest(CanonicalFilters(f2))
  {
    var d1, d2 := digest(CanonicalFilters(f1)), digest(CanonicalFilters(f2));
    var r1, r2 := ":extra:" + d1, ":extra:" + d2;
    assert ExtraKey(digest, t1, f1) == t1 + r1;
    assert ExtraKey(digest, t2, f2) == t2 + r2;
    TagPrefix(t1, r1, t2, r2);
    if r1 == r2 {
      assert d1 == r1[7..] && d2 == r2[7..];
    }
  }

  /** Counter keys and extra keys share the record part: two records share a
      counter key for a column exactly when they share the extra hash. */
  lemma RecordKeysAgree(digest: string -> string, t1: string, f1: seq<Filter>, t2: string, f2: seq<Filter>, column: string)
    requires ColonFree(t1) && ColonFree(t2)
    requires forall s :: IsHexDigest(digest(s))
    ensures CounterKey(digest, t1, f1, column) == CounterKey(digest, t2, f2, column) <==>
            ExtraKey(digest, t1, f1) == ExtraKey(digest, t2, f2)
  {
    CounterKeyInjective(digest, t1, f1, column, t2, f2, column);
    ExtraKeyInjective(digest, t1, f1, t2, f2);
  }

  /** No counter key is ever an extra key, so one Redis keyspace never holds a
      counter and a hash under the same name. */
  lemma KeySpacesDisjoint(digest: string -> string, t1: string, f1: seq<Filter>, column: string, t2: string, f2: seq<Filter>)
    requires ColonFree(t1) && ColonFree(t2)
    requires forall s :: IsHexDigest(digest(s))
    ensures CounterKey(digest, t1, f1, column) != ExtraKey(digest, t2, f2)
  {
    var d1, d2 := digest(CanonicalFilters(f1)), digest(CanonicalFilters(f2));
    var r1, r2 := ":" + d1 + ":" + column, ":extra:" + d2;
    assert CounterKey(digest, t1, f1, column) == t1 + r1;
    assert ExtraKey(digest, t2, f2) == t2 + r2;
    assert IsHexDigest(d1);
    assert r1[6] == d1[5] != ':' == r2[6];
    TagPrefix(t1, r1, t2, r2);
  }
}
