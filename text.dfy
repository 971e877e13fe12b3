/**
 * The string and sequence operations of Python that the server relies on:
 * `str.isspace`, `strip`, `find`, `split(sep, maxsplit)`, `rsplit`, `join`,
 * slicing with negative bounds, `int(str)` and `str(int)`, and `dict(pairs)`.
 * Each is stated once here, generically where the source applies it both to
 * `str` and to `bytes`.
 */
module Text {
  import opened Wrappers

  // ---------------------------------------------------------------------
  // Whitespace and stripping

  /** `str.isspace()` on one character: the Unicode whitespace set of Python. */
  predicate IsSpace(c: char) {
    var n := c as int;
    (9 <= n <= 13) || (28 <= n <= 32) || n == 0x85 || n == 0xA0 || n == 0x1680
    || (0x2000 <= n <= 0x200A) || n == 0x2028 || n == 0x2029 || n == 0x202F
    || n == 0x205F || n == 0x3000
  }

  /** `str.lstrip()`: drops the longest all-whitespace prefix. */
  function LStrip(s: string): (r: string)
    ensures |r| <= |s| && r == s[|s| - |r|..]
    ensures forall i :: 0 <= i < |s| - |r| ==> IsSpace(s[i])
    ensures r == [] || !IsSpace(r[0])
  {
    if s != [] && IsSpace(s[0]) then LStrip(s[1..]) else s
  }

  /** `str.rstrip()`: drops the longest all-whitespace suffix. */
  function RStrip(s: string): (r: string)
    ensures |r| <= |s| && r == s[..|r|]
    ensures forall i :: |r| <= i < |s| ==> IsSpace(s[i])
    ensures r == [] || !IsSpace(r[|r| - 1])
  {
    if s != [] && IsSpace(s[|s| - 1]) then RStrip(s[..|s| - 1]) else s
  }

  /** `str.strip()`: the text between the leading and the trailing whitespace. */
  function Strip(s: string): (r: string)
    ensures |r| <= |s|
    ensures r == [] || (!IsSpace(r[0]) && !IsSpace(r[|r| - 1]))
  {
    RStrip(LStrip(s))
  }

  /** Text made only of whitespace strips to nothing. */
  lemma StripAllSpace(s: string)
    requires forall i :: 0 <= i < |s| ==> IsSpace(s[i])
    ensures Strip(s) == []
  {
  }

  /** Stripping leaves alone a string with no whitespace at either end. */
  lemma StripUnchanged(s: string)
    requires s == [] || (!IsSpace(s[0]) && !IsSpace(s[|s| - 1]))
    ensures Strip(s) == s
  {
  }

  /** Trailing whitespace is removed by `strip` like any other. */
  lemma StripTrailingSpace(s: string, c: char)
    requires s != [] && !IsSpace(s[0]) && !IsSpace(s[|s| - 1]) && IsSpace(c)
    ensures Strip(s + [c]) == s
  {
    assert LStrip(s + [c]) == s + [c];
    assert (s + [c])[..|s|] == s;
  }

  // ---------------------------------------------------------------------
  // Searching

  /** `pat` occurs in `s` starting at position `i`. */
  predicate OccursAt<T(==)>(s: seq<T>, i: nat, pat: seq<T>) {
    i + |pat| <= |s| && s[i..i + |pat|] == pat
  }

  function FindFrom<T(==)>(s: seq<T>, pat: seq<T>, from: nat): (r: Option<nat>)
    requires from <= |s|
    ensures r.Some? ==> from <= r.value && OccursAt(s, r.value, pat)
    ensures r.Some? ==> forall j :: from <= j < r.value ==> !OccursAt(s, j, pat)
    ensures r.None? ==> forall j :: from <= j <= |s| ==> !OccursAt(s, j, pat)
    decreases |s| - from
  {
    if OccursAt(s, from, pat) then Some(from)
    else if from == |s| then None
    else FindFrom(s, pat, from + 1)
  }

  /** `s.find(pat)`: the first position where `pat` occurs, if any. */
  function Find<T(==)>(s: seq<T>, pat: seq<T>): (r: Option<nat>)
    ensures r.Some? ==> OccursAt(s, r.value, pat)
    ensures r.Some? ==> forall j :: 0 <= j < r.value ==> !OccursAt(s, j, pat)
    ensures r.None? ==> forall j :: 0 <= j <= |s| ==> !OccursAt(s, j, pat)
  {
    FindFrom(s, pat, 0)
  }

  /** `s.find(x)` for a single element. */
  function IndexOf<T(==)>(s: seq<T>, x: T): (r: Option<nat>)
    ensures r.Some? ==> r.value < |s| && s[r.value] == x && x !in s[..r.value]
    ensures r.None? ==> x !in s
  {
    if s == [] then None
    else if s[0] == x then Some(0)
    else match IndexOf(s[1..], x)
      case None => None
      case Some(i) => assert s[..i + 1] == [s[0]] + s[1..][..i]; Some(i + 1)
  }

  /** An element found at `i` and nowhere before is what `find` reports. */
  lemma {:induction false} IndexOfAt<T>(s: seq<T>, x: T, i: nat)
    requires i < |s| && s[i] == x && x !in s[..i]
    ensures IndexOf(s, x) == Some(i)
  {
    if i > 0 {
      assert s[0] == s[..i][0];
      assert s[1..][..i - 1] == s[1..i];
      assert s[1..i] == s[..i][1..];
      IndexOfAt(s[1..], x, i - 1);
    }
  }

  /** `s.rfind(x)` for a single element. */
  function LastIndexOf<T(==)>(s: seq<T>, x: T): (r: Option<nat>)
    ensures r.Some? ==> r.value < |s| && s[r.value] == x && x !in s[r.value + 1..]
    ensures r.None? ==> x !in s
  {
    if s == [] then None
    else if s[|s| - 1] == x then Some(|s| - 1)
    else
      var init := s[..|s| - 1];
      assert s == init + [s[|s| - 1]];
      match LastIndexOf(init, x)
      case None => None
      case Some(k) =>
        assert s[k + 1..] == init[k + 1..] + [s[|s| - 1]];
        Some(k)
  }

  /** An occurrence with none after it is the one `rfind` reports. */
  lemma {:induction false} LastIndexOfAt<T>(a: seq<T>, x: T, b: seq<T>)
    requires x !in b
    ensures LastIndexOf(a + [x] + b, x) == Some(|a|)
    decreases |b|
  {
    if b != [] {
      var s := a + [x] + b;
      var b' := b[..|b| - 1];
      assert s[|s| - 1] == b[|b| - 1];
      assert s[..|s| - 1] == a + [x] + b';
      assert forall y :: y in b' ==> y in b;
      LastIndexOfAt(a, x, b');
    }
  }

  // ---------------------------------------------------------------------
  // Splitting and joining

  /** `sep.join(parts)`. */
  function Join<T>(parts: seq<seq<T>>, sep: seq<T>): seq<T> {
    if parts == [] then []
    else if |parts| == 1 then parts[0]
    else parts[0] + sep + Join(parts[1..], sep)
  }

  /** A text is what comes before an occurrence, the occurrence, and what follows it. */
  lemma AroundOccurrence<T>(s: seq<T>, i: nat, sep: seq<T>)
    requires OccursAt(s, i, sep)
    ensures s == s[..i] + sep + s[i + |sep|..]
  {
    assert s == s[..i] + s[i..i + |sep|] + s[i + |sep|..];
  }

  /** Joining a part in front of at least one more puts a separator after it. */
  lemma JoinCons<T>(x: seq<T>, rest: seq<seq<T>>, sep: seq<T>)
    requires |rest| >= 1
    ensures Join([x] + rest, sep) == x + sep + Join(rest, sep)
    ensures ([x] + rest)[|rest|] == rest[|rest| - 1]
  {
    assert ([x] + rest)[1..] == rest;
  }

  /** A join of two or more parts is the first part, a separator, and the join of the rest. */
  lemma JoinFront<T>(parts: seq<seq<T>>, sep: seq<T>)
    requires |parts| > 1
    ensures Join(parts, sep) == parts[0] + (sep + Join(parts[1..], sep))
  {
  }

  /** `s.split(sep, maxsplit)`: splits at the first `maxsplit` occurrences of `sep`. */
  function SplitN<T(==)>(s: seq<T>, sep: seq<T>, maxsplit: nat): (parts: seq<seq<T>>)
    requires |sep| > 0
    ensures 1 <= |parts| <= maxsplit + 1
    ensures Join(parts, sep) == s
    decreases maxsplit
  {
    if maxsplit == 0 then [s]
    else match Find(s, sep)
      case None => [s]
      case Some(i) =>
        var rest := SplitN(s[i + |sep|..], sep, maxsplit - 1);
        JoinCons(s[..i], rest, sep);
        AroundOccurrence(s, i, sep);
        [s[..i]] + rest
  }

  /** `s.split(sep)`: splits at every occurrence of `sep`. */
  function Split<T(==)>(s: seq<T>, sep: seq<T>): (parts: seq<seq<T>>)
    requires |sep| > 0
    ensures |parts| >= 1
    ensures Join(parts, sep) == s
    decreases |s|
  {
    match Find(s, sep)
    case None => [s]
    case Some(i) =>
      var rest := Split(s[i + |sep|..], sep);
      JoinCons(s[..i], rest, sep);
      AroundOccurrence(s, i, sep);
      [s[..i]] + rest
  }

  /** No occurrence of `sep` begins inside `a`, even one running on into a following `sep`. */
  predicate SeparatorFirstAt<T(==)>(a: seq<T>, sep: seq<T>) {
    forall j :: 0 <= j < |a| ==> !OccursAt(a + sep, j, sep)
  }

  /** The first split of `a + sep + b` falls right after `a`: the rest, later separators included, is `b`. */
  lemma SplitOnceAt<T>(a: seq<T>, sep: seq<T>, b: seq<T>)
    requires |sep| > 0 && SeparatorFirstAt(a, sep)
    ensures Find(a + sep + b, sep) == Some(|a|)
    ensures SplitN(a + sep + b, sep, 1) == [a, b]
    ensures forall k: nat :: k >= 1 ==> SplitN(a + sep + b, sep, k) == [a] + SplitN(b, sep, k - 1)
    ensures Split(a + sep + b, sep) == [a] + Split(b, sep)
  {
    var s := a + sep + b;
    assert OccursAt(s, |a|, sep) by { assert s[|a|..|a| + |sep|] == sep; }
    forall j | 0 <= j < |a| ensures !OccursAt(s, j, sep) {
      assert !OccursAt(a + sep, j, sep);
      assert s[j..j + |sep|] == (a + sep)[j..j + |sep|];
    }
    assert Find(s, sep) == Some(|a|);
    assert s[..|a|] == a;
    assert s[|a| + |sep|..] == b;
  }

  /** An occurrence of `sep` cannot start at an element of `a` that differs from the separator's first one. */
  lemma NoStartInside<T>(a: seq<T>, rest: seq<T>, j: nat)
    requires j < |a|
    ensures forall sep: seq<T> :: |sep| > 0 && sep[0] !in a ==> !OccursAt(a + rest, j, sep)
  {
    forall sep: seq<T> | |sep| > 0 && sep[0] !in a ensures !OccursAt(a + rest, j, sep) {
      assert (a + rest)[j] == a[j];
      assert a[j] != sep[0];
      if j + |sep| <= |a + rest| {
        assert (a + rest)[j..j + |sep|][0] == a[j];
      }
    }
  }

  /** Splitting a join gives the parts back when no part but the last holds the separator's first element. */
  lemma {:induction false} SplitNJoin<T>(parts: seq<seq<T>>, sep: seq<T>)
    requires |sep| > 0 && |parts| >= 1
    requires forall i :: 0 <= i < |parts| - 1 ==> sep[0] !in parts[i]
    ensures SplitN(Join(parts, sep), sep, |parts| - 1) == parts
  {
    if |parts| > 1 {
      var a, tail := parts[0], parts[1..];
      assert parts == [a] + tail;
      JoinCons(a, tail, sep);
      SplitNCons(a, sep, Join(tail, sep), |tail|);
      forall i | 0 <= i < |tail| - 1 ensures sep[0] !in tail[i] {
        assert tail[i] == parts[i + 1];
      }
      SplitNJoin(tail, sep);
    }
  }

  /** `FirstPartEndsAtSeparator` for one split count. */
  lemma SplitNCons<T>(a: seq<T>, sep: seq<T>, rest: seq<T>, k: nat)
    requires |sep| > 0 && sep[0] !in a && k >= 1
    ensures SplitN(a + sep + rest, sep, k) == [a] + SplitN(rest, sep, k - 1)
  {
    FirstPartEndsAtSeparator(a, sep, rest);
  }

  /** Splitting `a + sep + rest` splits off `a` first when `a` lacks the separator's first element. */
  lemma FirstPartEndsAtSeparator<T>(a: seq<T>, sep: seq<T>, rest: seq<T>)
    requires |sep| > 0 && sep[0] !in a
    ensures forall k: nat :: k >= 1 ==> SplitN(a + sep + rest, sep, k) == [a] + SplitN(rest, sep, k - 1)
    ensures Split(a + sep + rest, sep) == [a] + Split(rest, sep)
  {
    forall j | 0 <= j < |a| ensures !OccursAt(a + sep, j, sep) {
      NoStartInside(a, sep, j);
    }
    SplitOnceAt(a, sep, rest);
  }

  /** With no separator in it, a text splits into itself alone. */
  lemma SplitNWithoutSeparator<T>(a: seq<T>, sep: seq<T>, k: nat)
    requires |sep| > 0 && sep[0] !in a
    ensures SplitN(a, sep, k) == [a]
  {
    forall j | 0 <= j <= |a| ensures !OccursAt(a, j, sep) {
      if j < |a| {
        NoStartInside(a, [], j);
        assert a + [] == a;
      }
    }
  }

  /** Splitting once at a one-element separator cuts at its first occurrence. */
  lemma SplitOnceAtFirst<T>(s: seq<T>, x: T)
    ensures SplitN(s, [x], 1) == match IndexOf(s, x)
      case None => [s]
      case Some(k) => [s[..k], s[k + 1..]]
  {
    match IndexOf(s, x)
    case None =>
      SplitNWithoutSeparator(s, [x], 1);
    case Some(k) =>
      assert s == s[..k] + [x] + s[k + 1..];
      FirstPartEndsAtSeparator(s[..k], [x], s[k + 1..]);
  }

  /** Splitting everywhere undoes a join when no part holds the separator's first element. */
  lemma {:induction false} SplitJoin<T>(parts: seq<seq<T>>, sep: seq<T>)
    requires |sep| > 0 && |parts| >= 1
    requires forall i :: 0 <= i < |parts| ==> sep[0] !in parts[i]
    ensures Split(Join(parts, sep), sep) == parts
  {
    if |parts| == 1 {
      var p := parts[0];
      forall j | 0 <= j <= |p| ensures !OccursAt(p, j, sep) {
        if j < |p| { NoStartInside(p, [], j); assert p + [] == p; }
      }
    } else {
      var a, tail := parts[0], parts[1..];
      FirstPartEndsAtSeparator(a, sep, Join(tail, sep));
      forall i | 0 <= i < |tail| ensures sep[0] !in tail[i] {
        assert tail[i] == parts[i + 1];
      }
      SplitJoin(tail, sep);
      assert parts == [a] + tail;
    }
  }

  /** `s.rsplit(x, 1)`: one piece when `x` is absent, else the text before and after its last occurrence. */
  function RSplitOnce<T(==)>(s: seq<T>, x: T): (parts: seq<seq<T>>)
    ensures |parts| == 1 <==> x !in s
    ensures |parts| == 1 ==> parts[0] == s
    ensures |parts| == 2 ==> s == parts[0] + [x] + parts[1] && x !in parts[1]
    ensures 1 <= |parts| <= 2
  {
    match LastIndexOf(s, x)
    case None => [s]
    case Some(i) => assert s == s[..i] + [x] + s[i + 1..]; [s[..i], s[i + 1..]]
  }

  /** Splitting at the last `x` of `a + [x] + b` gives `a` and `b` back when `b` holds no `x`. */
  lemma RSplitOnceAt<T>(a: seq<T>, x: T, b: seq<T>)
    requires x !in b
    ensures RSplitOnce(a + [x] + b, x) == [a, b]
  {
    var s := a + [x] + b;
    LastIndexOfAt(a, x, b);
    assert s[..|a|] == a && s[|a| + 1..] == b;
  }

  // ---------------------------------------------------------------------
  // Slices with Python's clamping

  /** `s[n:]`: everything after the first `n` elements, empty when `s` is shorter. */
  function DropFirst<T>(s: seq<T>, n: nat): (r: seq<T>)
    ensures |s| <= n ==> r == []
    ensures n < |s| ==> |r| == |s| - n && r == s[n..]
  {
    if |s| <= n then [] else s[n..]
  }

  /** `s[:-n]` for `n > 0`: everything but the last `n` elements, empty when `s` is shorter. */
  function DropLast<T>(s: seq<T>, n: nat): (r: seq<T>)
    requires n > 0
    ensures |s| <= n ==> r == []
    ensures n < |s| ==> |r| == |s| - n && r == s[..|s| - n]
  {
    if |s| <= n then [] else s[..|s| - n]
  }

  predicate StartsWith<T(==)>(s: seq<T>, prefix: seq<T>) {
    |prefix| <= |s| && s[..|prefix|] == prefix
  }

  // ---------------------------------------------------------------------
  // Decimal integers

  predicate IsDigit(c: char) { '0' <= c <= '9' }

  function DigitValue(c: char): (d: nat)
    requires IsDigit(c)
    ensures d < 10
  {
    c as int - '0' as int
  }

  function DigitChar(d: nat): (c: char)
    requires d < 10
    ensures IsDigit(c) && DigitValue(c) == d
  {
    (d + '0' as int) as char
  }

  /** The value of a string of ASCII digits, most significant first. */
  function DigitsValue(s: string): nat
    requires forall i :: 0 <= i < |s| ==> IsDigit(s[i])
  {
    if s == [] then 0 else 10 * DigitsValue(s[..|s| - 1]) + DigitValue(s[|s| - 1])
  }

  /** `str(n)` for a natural number: decimal digits, no leading zero. */
  function Decimal(n: nat): (s: string)
    ensures |s| >= 1 && forall i :: 0 <= i < |s| ==> IsDigit(s[i])
    ensures |s| > 1 ==> s[0] != '0'
  {
    if n < 10 then [DigitChar(n)] else Decimal(n / 10) + [DigitChar(n % 10)]
  }

  lemma {:induction false} DecimalValue(n: nat)
    ensures DigitsValue(Decimal(n)) == n
  {
    if n >= 10 {
      var s := Decimal(n);
      assert s[..|s| - 1] == Decimal(n / 10);
      DecimalValue(n / 10);
    }
  }

  /** A digit string in Python's integer syntax: digits, single underscores only between two digits. */
  predicate DigitGroups(s: string) {
    && s != [] && IsDigit(s[0]) && IsDigit(s[|s| - 1])
    && (forall i :: 0 <= i < |s| ==> IsDigit(s[i]) || s[i] == '_')
    && (forall i :: 0 <= i < |s| - 1 ==> !(s[i] == '_' && s[i + 1] == '_'))
  }

  /** The characters of `s` other than underscores. */
  function Digits(s: string): (r: string)
    requires forall i :: 0 <= i < |s| ==> IsDigit(s[i]) || s[i] == '_'
    ensures forall i :: 0 <= i < |r| ==> IsDigit(r[i])
    ensures (forall i :: 0 <= i < |s| ==> IsDigit(s[i])) ==> r == s
  {
    if s == [] then []
    else if s[|s| - 1] == '_' then Digits(s[..|s| - 1])
    else Digits(s[..|s| - 1]) + [s[|s| - 1]]
  }

  /** The value of an unsigned integer literal in Python's syntax, if `s` is one. */
  function UnsignedValue(s: string): (r: Option<nat>)
    ensures r.Some? <==> DigitGroups(s)
  {
    if DigitGroups(s) then Some(DigitsValue(Digits(s))) else None
  }

  /**
   * `int(s)` with base 10: surrounding whitespace is ignored, one sign may
   * precede the digits, and underscores may separate digits. `None` stands
   * for the `ValueError` that `int` raises. Non-ASCII decimal digits, which
   * `int` also accepts, are not part of this model.
   */
  function ParseInt(s: string): Option<int> {
    var t := Strip(s);
    if t != [] && (t[0] == '+' || t[0] == '-') then
      match UnsignedValue(t[1..])
      case None => None
      case Some(v) => Some(if t[0] == '-' then -(v as int) else v as int)
    else
      match UnsignedValue(t)
      case None => None
      case Some(v) => Some(v)
  }

  /** `int(str(n)) == n`. */
  lemma DecimalRoundTrip(n: nat)
    ensures ParseInt(Decimal(n)) == Some(n)
  {
    var s := Decimal(n);
    DigitsAreLiteral(s);
    DecimalValue(n);
  }

  /** A nonempty run of ASCII digits reads back unchanged through `int`. */
  lemma DigitsAreLiteral(s: string)
    requires s != [] && forall i :: 0 <= i < |s| ==> IsDigit(s[i])
    ensures ParseInt(s) == Some(DigitsValue(s) as int)
  {
    var first, last := s[0], s[|s| - 1];
    assert IsDigit(first) && IsDigit(last);
    StripUnchanged(s);
    DigitsUnsigned(s);
    UnsignedUnsigned(s);
  }

  /** Text with nothing to strip and no sign is read as an unsigned literal. */
  lemma UnsignedUnsigned(s: string)
    requires Strip(s) == s && (s == [] || (s[0] != '+' && s[0] != '-'))
    ensures ParseInt(s) == match UnsignedValue(s) case None => None case Some(v) => Some(v as int)
  {
  }

  /** Digits alone are an unsigned literal of their own value. */
  lemma DigitsUnsigned(s: string)
    requires s != [] && forall i :: 0 <= i < |s| ==> IsDigit(s[i])
    ensures UnsignedValue(s) == Some(DigitsValue(s))
  {
    assert DigitGroups(s) by {
      assert forall i :: 0 <= i < |s| - 1 ==> s[i] != '_';
    }
    assert Digits(s) == s;
  }

  // ---------------------------------------------------------------------
  // Dictionaries built from pairs

  /** `dict(pairs)`: a later pair with the same key replaces an earlier one. */
  function Dict<K, V>(pairs: seq<(K, V)>): (m: map<K, V>)
    ensures m.Keys == set i | 0 <= i < |pairs| :: pairs[i].0
  {
    if pairs == [] then map[]
    else
      var init := pairs[..|pairs| - 1];
      var m := Dict(init)[pairs[|pairs| - 1].0 := pairs[|pairs| - 1].1];
      assert forall i :: 0 <= i < |init| ==> init[i] == pairs[i];
      m
  }

  /** The value kept for a key is the one from its last pair. */
  lemma {:induction false} DictLastWins<K, V>(pairs: seq<(K, V)>, i: nat)
    requires i < |pairs|
    requires forall j :: i < j < |pairs| ==> pairs[j].0 != pairs[i].0
    ensures pairs[i].0 in Dict(pairs) && Dict(pairs)[pairs[i].0] == pairs[i].1
  {
    if i < |pairs| - 1 {
      var init := pairs[..|pairs| - 1];
      assert init[i] == pairs[i];
      DictLastWins(init, i);
    }
  }

  /** A pair added at the end overrides whatever the earlier pairs say about its key. */
  lemma DictAppend<K, V>(pairs: seq<(K, V)>, k: K, v: V)
    ensures Dict(pairs + [(k, v)]) == Dict(pairs)[k := v]
  {
    assert (pairs + [(k, v)])[..|pairs|] == pairs;
  }
}
