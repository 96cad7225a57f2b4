/**
 * The string operations the inventory code relies on: Python's `strip()` and
 * `lower()`, JavaScript's `trim()`, `toLowerCase()` and `includes()`, prefix
 * tests, and splitting and joining on a one-character separator.
 */
module Text {

  // ---------------------------------------------------------------------------
  // Whitespace and strip()

  /** Characters that `str.strip()` removes: Python's whitespace. */
  predicate IsSpace(c: char) {
    c == ' ' || c == '\t' || c == '\n' || c == '\r' || c == '\U{0B}' || c == '\U{0C}'
    || ('\U{1C}' <= c <= '\U{1F}') || c == '\U{85}' || c == '\U{A0}' || c == '\U{1680}'
    || ('\U{2000}' <= c <= '\U{200A}') || c == '\U{2028}' || c == '\U{2029}'
    || c == '\U{202F}' || c == '\U{205F}' || c == '\U{3000}'
  }

  predicate AllSpace(s: string) {
    forall i :: 0 <= i < |s| ==> IsSpace(s[i])
  }

  function DropLeading(s: string): (r: string)
    ensures |r| <= |s|
  {
    if |s| > 0 && IsSpace(s[0]) then DropLeading(s[1..]) else s
  }

  function DropTrailing(s: string): (r: string)
    ensures |r| <= |s|
  {
    if |s| > 0 && IsSpace(s[|s| - 1]) then DropTrailing(s[..|s| - 1]) else s
  }

  /** Dropping leading whitespace keeps a suffix that does not start with
      whitespace, and only whitespace goes. */
  lemma {:induction false} DropLeadingSpec(s: string)
    ensures DropLeading(s) == s[|s| - |DropLeading(s)|..]
    ensures AllSpace(s[..|s| - |DropLeading(s)|])
    ensures DropLeading(s) == [] || !IsSpace(DropLeading(s)[0])
  {
    if |s| > 0 && IsSpace(s[0]) {
      DropLeadingSpec(s[1..]);
      var k := |s| - |DropLeading(s)|;
      assert s[1..][..k - 1] == s[1..k];
      assert s[1..][|s| - 1 - |DropLeading(s)|..] == s[k..];
    }
  }

  /** Dropping trailing whitespace keeps a prefix that does not end with
      whitespace, and only whitespace goes. */
  lemma {:induction false} DropTrailingSpec(s: string)
    ensures DropTrailing(s) == s[..|DropTrailing(s)|]
    ensures AllSpace(s[|DropTrailing(s)|..])
    ensures DropTrailing(s) == [] || !IsSpace(DropTrailing(s)[|DropTrailing(s)| - 1])
  {
    if |s| > 0 && IsSpace(s[|s| - 1]) {
      var p := s[..|s| - 1];
      DropTrailingSpec(p);
      var k := |DropTrailing(s)|;
      assert p[k..] + [s[|s| - 1]] == s[k..];
      assert p[..k] == s[..k];
    }
  }

  /** Python's `s.strip()` (and JavaScript's `s.trim()`). */
  function Strip(s: string): string {
    DropTrailing(DropLeading(s))
  }

  /** What strip() keeps is a slice of the input with only whitespace around it
      and no whitespace at either of its ends. */
  lemma StripIsTrimmedSlice(s: string)
    ensures exists i, j ::
      (0 <= i <= j <= |s| && Strip(s) == s[i..j] && AllSpace(s[..i]) && AllSpace(s[j..]))
    ensures Strip(s) == [] || (!IsSpace(Strip(s)[0]) && !IsSpace(Strip(s)[|Strip(s)| - 1]))
  {
    var l := DropLeading(s);
    DropLeadingSpec(s);
    DropTrailingSpec(l);
    var i := |s| - |l|;
    var r := DropTrailing(l);
    var j := i + |r|;
    assert s[i..j] == r;
    assert s[j..] == l[|r|..];
  }

  /** A string strips to "" exactly when it is all whitespace (a blank cell). */
  lemma {:induction false} StripEmptyIffBlank(s: string)
    ensures Strip(s) == [] <==> AllSpace(s)
  {
    var l := DropLeading(s);
    DropLeadingSpec(s);
    DropTrailingSpec(l);
    assert s == s[..|s| - |l|] + l;
    assert l[0..] == l;
    assert l != [] ==> l[0] == s[|s| - |l|];
  }

  lemma DropLeadingOfTrimmed(s: string)
    requires s == [] || !IsSpace(s[0])
    ensures DropLeading(s) == s
  {
  }

  lemma {:induction false} DropTrailingKeepsHead(s: string)
    requires s == [] || !IsSpace(s[0])
    ensures DropTrailing(s) == [] || !IsSpace(DropTrailing(s)[0])
    ensures DropTrailing(s) == [] ==> s == []
  {
    if |s| > 0 && IsSpace(s[|s| - 1]) {
      assert |s| > 1;
      DropTrailingKeepsHead(s[..|s| - 1]);
    }
  }

  /** strip() is idempotent. */
  lemma StripIdempotent(s: string)
    ensures Strip(Strip(s)) == Strip(s)
  {
    var l := DropLeading(s);
    DropLeadingSpec(s);
    DropTrailingSpec(l);
    DropTrailingKeepsHead(l);
    var t := Strip(s);
    DropLeadingOfTrimmed(t);
    assert DropTrailing(t) == t;
  }

  lemma {:induction false} DropLeadingPrefix(pad: string, s: string)
    requires AllSpace(pad)
    ensures DropLeading(pad + s) == DropLeading(s)
  {
    if pad != [] {
      var ps := pad + s;
      assert IsSpace(pad[0]);
      assert ps[0] == pad[0];
      assert ps[1..] == pad[1..] + s;
      assert DropLeading(ps) == DropLeading(ps[1..]);
      var rest := pad[1..];
      assert AllSpace(rest) by {
        forall i | 0 <= i < |rest| ensures IsSpace(rest[i]) {
          assert rest[i] == pad[i + 1];
        }
      }
      DropLeadingPrefix(rest, s);
    } else {
      assert pad + s == s;
    }
  }

  lemma {:induction false} DropTrailingSuffix(s: string, pad: string)
    requires AllSpace(pad)
    ensures DropTrailing(s + pad) == DropTrailing(s)
  {
    if pad != [] {
      var sp := s + pad;
      var p := pad[..|pad| - 1];
      assert IsSpace(pad[|pad| - 1]);
      assert sp[|sp| - 1] == pad[|pad| - 1];
      assert sp[..|sp| - 1] == s + p;
      assert DropTrailing(sp) == DropTrailing(sp[..|sp| - 1]);
      assert AllSpace(p) by {
        forall i | 0 <= i < |p| ensures IsSpace(p[i]) {
          assert p[i] == pad[i];
        }
      }
      DropTrailingSuffix(s, p);
    } else {
      assert s + pad == s;
    }
  }

  lemma {:induction false} DropLeadingSuffix(s: string, pad: string)
    requires AllSpace(pad)
    ensures DropTrailing(DropLeading(s + pad)) == DropTrailing(DropLeading(s))
  {
    if |s| > 0 && IsSpace(s[0]) {
      assert (s + pad)[1..] == s[1..] + pad;
      DropLeadingSuffix(s[1..], pad);
    } else if |s| > 0 {
      DropTrailingSuffix(s, pad);
    } else {
      assert s + pad == pad;
      DropLeadingSpec(pad);
      assert AllSpace(pad[..|pad|]);
    }
  }

  /** Surrounding whitespace never changes what strip() returns. */
  lemma StripIgnoresPadding(pre: string, s: string, post: string)
    requires AllSpace(pre) && AllSpace(post)
    ensures Strip(pre + s + post) == Strip(s)
  {
    assert pre + s + post == pre + (s + post);
    DropLeadingPrefix(pre, s + post);
    DropLeadingSuffix(s, post);
  }

  // ---------------------------------------------------------------------------
  // Case mapping

  /** Lower-case mapping of one character: ASCII A-Z and the Latin-1 capitals
      À-Þ (except the multiplication sign) map 0x20 up; everything else is kept. */
  function LowerChar(c: char): (r: char)
    ensures IsSpace(r) == IsSpace(c)
    ensures ('A' <= c <= 'Z') ==> r != c
  {
    if 'A' <= c <= 'Z' || ('\U{C0}' <= c <= '\U{DE}' && c != '\U{D7}') then
      (c as int + 32) as char
    else c
  }

  /** Python's `s.lower()` and JavaScript's `s.toLowerCase()`. */
  function Lower(s: string): (r: string)
    ensures |r| == |s|
    ensures forall i :: 0 <= i < |s| ==> r[i] == LowerChar(s[i])
  {
    if s == [] then [] else [LowerChar(s[0])] + Lower(s[1..])
  }

  lemma LowerCharIdempotent(c: char)
    ensures LowerChar(LowerChar(c)) == LowerChar(c)
  {
  }

  /** lower() is idempotent. */
  lemma LowerIdempotent(s: string)
    ensures Lower(Lower(s)) == Lower(s)
  {
    forall i | 0 <= i < |s| ensures Lower(Lower(s))[i] == Lower(s)[i] {
      LowerCharIdempotent(s[i]);
    }
  }

  lemma LowerAppend(a: string, b: string)
    ensures Lower(a + b) == Lower(a) + Lower(b)
  {
  }

  lemma {:induction false} LowerDropLeading(s: string)
    ensures Lower(DropLeading(s)) == DropLeading(Lower(s))
  {
    if |s| > 0 && IsSpace(s[0]) {
      assert Lower(s)[1..] == Lower(s[1..]);
      LowerDropLeading(s[1..]);
    }
  }

  lemma {:induction false} LowerDropTrailing(s: string)
    ensures Lower(DropTrailing(s)) == DropTrailing(Lower(s))
  {
    if |s| > 0 && IsSpace(s[|s| - 1]) {
      assert Lower(s)[..|s| - 1] == Lower(s[..|s| - 1]);
      LowerDropTrailing(s[..|s| - 1]);
    }
  }

  /** Lower-casing and stripping commute, because case mapping never turns a
      letter into whitespace or back. */
  lemma LowerStripCommute(s: string)
    ensures Lower(Strip(s)) == Strip(Lower(s))
  {
    LowerDropLeading(s);
    LowerDropTrailing(DropLeading(s));
  }

  // ---------------------------------------------------------------------------
  // Substrings and prefixes

  /** `q in s` in Python, `s.includes(q)` in JavaScript. */
  function Contains(s: string, q: string): (r: bool)
    ensures q == [] ==> r
    ensures |q| > |s| ==> !r
  {
    q <= s || (|s| > 0 && Contains(s[1..], q))
  }

  /** q occurs in s starting at offset i. */
  predicate OccursAt(s: string, q: string, i: int) {
    0 <= i <= |s| - |q| && s[i..i + |q|] == q
  }

  /** Contains means: q occurs at some offset of s. */
  lemma {:induction false} ContainsIffOccurs(s: string, q: string)
    ensures Contains(s, q) <==> exists i :: OccursAt(s, q, i)
  {
    if q <= s {
      assert s[0..|q|] == q;
      assert OccursAt(s, q, 0);
    } else if |s| > 0 {
      ContainsIffOccurs(s[1..], q);
      if Contains(s[1..], q) {
        var i :| OccursAt(s[1..], q, i);
        assert s[i + 1..i + 1 + |q|] == q;
        assert OccursAt(s, q, i + 1);
      }
      assert OccursAt(s, q, 0) ==> q <= s;
      if exists i :: OccursAt(s, q, i) {
        var i :| OccursAt(s, q, i);
        assert s[1..][i - 1..i - 1 + |q|] == q;
        assert OccursAt(s[1..], q, i - 1);
      }
    } else {
      assert forall i :: !OccursAt(s, q, i);
    }
  }

  // ---------------------------------------------------------------------------
  // Splitting and joining on a one-character separator

  /** Python's `s.split(sep)` for a one-character separator: "" splits into [""],
      and consecutive separators give empty fields. */
  function Split(s: string, sep: char): (r: seq<string>)
    ensures |r| >= 1
    decreases |s|
  {
    if |s| == 0 then [""]
    else
      var rest := Split(s[1..], sep);
      if s[0] == sep then [""] + rest
      else [[s[0]] + rest[0]] + rest[1..]
  }

  /** Python's `sep.join(xs)`. */
  function Join(xs: seq<string>, sep: char): string {
    if |xs| == 0 then ""
    else if |xs| == 1 then xs[0]
    else xs[0] + [sep] + Join(xs[1..], sep)
  }

  lemma {:induction false} JoinCons(c: char, h: string, t: seq<string>, sep: char)
    ensures Join([[c] + h] + t, sep) == [c] + Join([h] + t, sep)
  {
    if |t| > 0 {
      assert ([[c] + h] + t)[1..] == t;
      assert ([h] + t)[1..] == t;
    }
  }

  /** Joining the fields of a split gives back the string. */
  lemma {:induction false} JoinSplit(s: string, sep: char)
    ensures Join(Split(s, sep), sep) == s
  {
    if |s| > 0 {
      var rest := Split(s[1..], sep);
      JoinSplit(s[1..], sep);
      if s[0] == sep {
        assert ([""] + rest)[1..] == rest;
        assert s == [sep] + s[1..];
      } else {
        assert [rest[0]] + rest[1..] == rest;
        JoinCons(s[0], rest[0], rest[1..], sep);
        assert s == [s[0]] + s[1..];
      }
    }
  }

  lemma {:induction false} SplitNoSep(a: string, t: string, sep: char)
    requires sep !in a
    ensures Split(a + t, sep) == [a + Split(t, sep)[0]] + Split(t, sep)[1..]
  {
    if |a| > 0 {
      assert (a + t)[0] == a[0] != sep;
      assert (a + t)[1..] == a[1..] + t;
      SplitNoSep(a[1..], t, sep);
      assert [a[0]] + (a[1..] + Split(t, sep)[0]) == a + Split(t, sep)[0];
    } else {
      assert a + t == t;
      assert a + Split(t, sep)[0] == Split(t, sep)[0];
      assert [Split(t, sep)[0]] + Split(t, sep)[1..] == Split(t, sep);
    }
  }

  /** Splitting what was joined gives the fields back, provided there is at least
      one field and no field contains the separator. */
  lemma {:induction false} SplitJoin(xs: seq<string>, sep: char)
    requires |xs| >= 1
    requires forall k :: 0 <= k < |xs| ==> sep !in xs[k]
    ensures Split(Join(xs, sep), sep) == xs
  {
    if |xs| == 1 {
      SplitNoSep(xs[0], "", sep);
      assert xs[0] + "" == xs[0];
    } else {
      var rest := Join(xs[1..], sep);
      SplitJoin(xs[1..], sep);
      var u := [sep] + rest;
      assert Join(xs, sep) == xs[0] + u;
      SplitNoSep(xs[0], u, sep);
      assert u[0] == sep && u[1..] == rest;
      assert Split(u, sep) == [""] + Split(rest, sep);
      assert xs[0] + "" == xs[0];
      assert xs == [xs[0]] + xs[1..];
    }
  }

  /** Number of occurrences of c in s. */
  function CountChar(s: string, c: char): nat {
    if |s| == 0 then 0 else (if s[0] == c then 1 else 0) + CountChar(s[1..], c)
  }

  lemma {:induction false} CountCharZero(s: string, c: char)
    ensures CountChar(s, c) == 0 <==> c !in s
  {
    if |s| > 0 {
      CountCharZero(s[1..], c);
      assert s == [s[0]] + s[1..];
    }
  }

  lemma {:induction false} CountCharAppend(a: string, b: string, c: char)
    ensures CountChar(a + b, c) == CountChar(a, c) + CountChar(b, c)
  {
    if |a| == 0 {
      assert a + b == b;
    } else {
      assert (a + b)[1..] == a[1..] + b;
      CountCharAppend(a[1..], b, c);
    }
  }

  /** A split has one more field than the string has separators. */
  lemma {:induction false} SplitCount(s: string, sep: char)
    ensures |Split(s, sep)| == 1 + CountChar(s, sep)
    decreases |s|
  {
    if |s| > 0 {
      SplitCount(s[1..], sep);
    }
  }
}
