/**
 * The Python `str` operations the integration relies on: `lower`, `strip`,
 * `split`, `replace`, `title` and `startswith`. Whitespace is every character
 * Python's `str.isspace` accepts; case mapping follows the ASCII rules.
 */
module PyStr {

  /** `c.isspace()`. */
  predicate IsSpace(c: char)
  {
    || '\t' <= c <= '\r'
    || '\U{1C}' <= c <= ' '
    || c == '\U{85}' || c == '\U{A0}' || c == '\U{1680}'
    || '\U{2000}' <= c <= '\U{200A}'
    || c == '\U{2028}' || c == '\U{2029}' || c == '\U{202F}' || c == '\U{205F}'
    || c == '\U{3000}'
  }

  predicate IsUpper(c: char) { 'A' <= c <= 'Z' }

  predicate IsLower(c: char) { 'a' <= c <= 'z' }

  /** A letter that has an upper and a lower case. */
  predicate IsCased(c: char) { IsUpper(c) || IsLower(c) }

  function ToLower(c: char): (d: char)
    ensures !IsUpper(d) && IsCased(d) == IsCased(c)
    ensures !IsUpper(c) ==> d == c
  {
    if IsUpper(c) then (c as int + 32) as char else c
  }

  function ToUpper(c: char): (d: char)
    ensures !IsLower(d) && IsCased(d) == IsCased(c)
    ensures !IsLower(c) ==> d == c
    ensures ToLower(d) == ToLower(c)
  {
    if IsLower(c) then (c as int - 32) as char else c
  }

  /** No upper-case letter anywhere in `s`. */
  predicate NoUpper(s: string)
  {
    forall i :: 0 <= i < |s| ==> !IsUpper(s[i])
  }

  /** `s.lower()`: only upper-case letters change, and each only in case. */
  function Lower(s: string): (r: string)
    ensures |r| == |s| && NoUpper(r)
    ensures forall i :: 0 <= i < |s| ==> ToLower(r[i]) == ToLower(s[i])
    ensures forall i :: 0 <= i < |s| && !IsUpper(s[i]) ==> r[i] == s[i]
  {
    seq(|s|, i requires 0 <= i < |s| => ToLower(s[i]))
  }

  lemma LowerOfLower(s: string)
    requires NoUpper(s)
    ensures Lower(s) == s
  {
  }

  /** Every character of `s` is whitespace (so `s.strip()` is empty). */
  predicate AllSpace(s: string)
  {
    forall i :: 0 <= i < |s| ==> IsSpace(s[i])
  }

  /** What `strip` leaves: no whitespace at either end. */
  predicate Stripped(s: string)
  {
    s == [] || (!IsSpace(s[0]) && !IsSpace(s[|s| - 1]))
  }

  /** How many whitespace characters `s` starts with. */
  function LeadingSpace(s: string): (n: nat)
    ensures n <= |s| && AllSpace(s[..n])
    ensures n == |s| || !IsSpace(s[n])
  {
    if s != [] && IsSpace(s[0]) then
      var n := LeadingSpace(s[1..]) + 1;
      assert s[..n] == [s[0]] + s[1..][..n - 1];
      n
    else 0
  }

  /** How many whitespace characters `s` ends with. */
  function TrailingSpace(s: string): (n: nat)
    ensures n <= |s| && AllSpace(s[|s| - n..])
    ensures n == |s| || !IsSpace(s[|s| - 1 - n])
  {
    if s != [] && IsSpace(s[|s| - 1]) then
      var init := s[..|s| - 1];
      var n := TrailingSpace(init) + 1;
      assert s[|s| - n..] == init[|init| - (n - 1)..] + [s[|s| - 1]];
      n
    else 0
  }

  /** `s.lstrip()`. */
  function LStrip(s: string): string
  {
    s[LeadingSpace(s)..]
  }

  /** `s.rstrip()`. */
  function RStrip(s: string): string
  {
    s[..|s| - TrailingSpace(s)]
  }

  /** `s.strip()`. */
  function Strip(s: string): (r: string)
    ensures Stripped(r) && |r| <= |s|
    ensures r == [] <==> AllSpace(s)
  {
    var l := LStrip(s);
    assert s == s[..LeadingSpace(s)] + l;
    RStrip(l)
  }

  lemma StripKeepsCharacters(s: string)
    ensures forall c :: c in Strip(s) ==> c in s
  {
    var l := LStrip(s);
    assert forall c :: c in l ==> c in s;
    assert forall c :: c in RStrip(l) ==> c in l;
  }

  lemma {:induction false} LStripAfterSpaces(a: string, t: string)
    requires AllSpace(a) && (t == [] || !IsSpace(t[0]))
    ensures LStrip(a + t) == t
  {
    if a != [] {
      assert (a + t)[1..] == a[1..] + t;
      LStripAfterSpaces(a[1..], t);
    }
  }

  lemma {:induction false} RStripBeforeSpaces(t: string, b: string)
    requires AllSpace(b) && (t == [] || !IsSpace(t[|t| - 1]))
    ensures RStrip(t + b) == t
  {
    if b != [] {
      assert (t + b)[..|t + b| - 1] == t + b[..|b| - 1];
      RStripBeforeSpaces(t, b[..|b| - 1]);
    }
  }

  /** `strip` removes exactly the whitespace padding around a stripped core. */
  lemma StripPadded(a: string, x: string, b: string)
    requires AllSpace(a) && Stripped(x) && AllSpace(b)
    ensures Strip(a + x + b) == x
  {
    if x == [] {
      assert a + x + b == (a + b) + [];
      LStripAfterSpaces(a + b, []);
    } else {
      assert a + x + b == a + (x + b);
      LStripAfterSpaces(a, x + b);
      RStripBeforeSpaces(x, b);
    }
  }

  lemma StripOfStripped(x: string)
    requires Stripped(x)
    ensures Strip(x) == x
  {
    assert [] + x + [] == x;
    StripPadded([], x, []);
  }

  /** `sep.join(parts)`. */
  function Join(parts: seq<string>, sep: char): string
    requires |parts| >= 1
  {
    if |parts| == 1 then parts[0] else parts[0] + [sep] + Join(parts[1..], sep)
  }

  lemma JoinHead(parts: seq<string>, sep: char)
    requires |parts| >= 1
    ensures parts[0] <= Join(parts, sep)
    ensures |parts| > 1 ==> Join(parts, sep)[|parts[0]|] == sep
  {
  }

  /** Joining one more part at the end adds the separator and the part. */
  lemma {:induction false} JoinSnoc(parts: seq<string>, last: string, sep: char)
    requires |parts| >= 1
    ensures Join(parts + [last], sep) == Join(parts, sep) + [sep] + last
  {
    if |parts| > 1 {
      assert (parts + [last])[1..] == parts[1..] + [last];
      JoinSnoc(parts[1..], last, sep);
    }
  }

  /** Joining two lists of parts joins their joins. */
  lemma {:induction false} JoinAppend(p: seq<string>, q: seq<string>, sep: char)
    requires |p| >= 1 && |q| >= 1
    ensures Join(p + q, sep) == Join(p, sep) + [sep] + Join(q, sep)
  {
    if |p| > 1 {
      assert (p + q)[1..] == p[1..] + q;
      JoinAppend(p[1..], q, sep);
    } else {
      assert (p + q)[1..] == q;
    }
  }

  /** `s.split(sep)` for a one-character separator. */
  function Split(s: string, sep: char): (parts: seq<string>)
    ensures |parts| >= 1
    ensures forall k :: 0 <= k < |parts| ==> sep !in parts[k]
    ensures Join(parts, sep) == s
  {
    if s == [] then [[]]
    else
      var rest := Split(s[1..], sep);
      if s[0] == sep then
        assert [sep] + s[1..] == s;
        [[]] + rest
      else
        var parts := [[s[0]] + rest[0]] + rest[1..];
        assert parts[1..] == rest[1..];
        assert [s[0]] + s[1..] == s;
        parts
  }

  /** Joining pieces that do not contain the separator loses nothing. */
  lemma {:induction false} JoinInjective(p: seq<string>, q: seq<string>, sep: char)
    requires |p| >= 1 && |q| >= 1
    requires forall k :: 0 <= k < |p| ==> sep !in p[k]
    requires forall k :: 0 <= k < |q| ==> sep !in q[k]
    requires Join(p, sep) == Join(q, sep)
    ensures p == q
  {
    var s := Join(p, sep);
    JoinHead(p, sep);
    JoinHead(q, sep);
    if |p| > 1 && |q| > 1 {
      assert p[0] == q[0];
      assert Join(p[1..], sep) == s[|p[0]| + 1..] == Join(q[1..], sep);
      JoinInjective(p[1..], q[1..], sep);
      assert p == [p[0]] + p[1..];
      assert q == [q[0]] + q[1..];
    }
  }

  /** Splitting at a separator splits each side on its own. */
  lemma SplitAround(a: string, b: string, sep: char)
    ensures Split(a + [sep] + b, sep) == Split(a, sep) + Split(b, sep)
  {
    var p, q := Split(a, sep), Split(b, sep);
    JoinAppend(p, q, sep);
    SplitJoin(p + q, sep);
  }

  /** `sep.join(parts).split(sep) == parts` when no part holds the separator. */
  lemma SplitJoin(parts: seq<string>, sep: char)
    requires |parts| >= 1
    requires forall k :: 0 <= k < |parts| ==> sep !in parts[k]
    ensures Split(Join(parts, sep), sep) == parts
  {
    JoinInjective(Split(Join(parts, sep), sep), parts, sep);
  }

  /** `eid.split(".")[0]`: the domain part of an entity id. */
  function Domain(eid: string): (d: string)
    ensures d <= eid && '.' !in d
    ensures |d| < |eid| ==> eid[|d|] == '.'
  {
    var parts := Split(eid, '.');
    JoinHead(parts, '.');
    parts[0]
  }

  /** Two dot-free prefixes of a text that each end at a dot or at its end are the same. */
  lemma DotFreePrefixUnique(s: string, a: string, b: string)
    requires a <= s && '.' !in a && (|a| == |s| || s[|a|] == '.')
    requires b <= s && '.' !in b && (|b| == |s| || s[|b|] == '.')
    ensures a == b
  {
    assert |a| == |b|;
  }

  /** The domain is a given dot-free text exactly when the id is that text, or it followed by a dot and more. */
  lemma DomainIs(eid: string, d: string)
    requires '.' !in d
    ensures Domain(eid) == d <==> eid == d || d + "." <= eid
  {
    var dom := Domain(eid);
    if dom == d && eid != d {
      assert eid[..|d| + 1] == d + ".";
    }
    if eid == d || d + "." <= eid {
      assert d <= eid;
      assert |d| == |eid| || eid[|d|] == (d + ".")[|d|];
      DotFreePrefixUnique(eid, dom, d);
    }
  }

  /** `s.replace(target, replacement)` for single characters. */
  function Replace(s: string, target: char, replacement: char): (r: string)
    ensures |r| == |s|
    ensures target != replacement ==> target !in r
    ensures forall i :: 0 <= i < |s| && s[i] != target ==> r[i] == s[i]
    ensures forall i :: 0 <= i < |s| && s[i] == target ==> r[i] == replacement
  {
    seq(|s|, i requires 0 <= i < |s| => if s[i] == target then replacement else s[i])
  }

  /**
   * `s.title()` continued after a character that was cased (`afterCased`)
   * or not: a cased character becomes upper case exactly when the character
   * before it is not cased; every other character is left alone.
   */
  function TitleFrom(s: string, afterCased: bool): (r: string)
    ensures |r| == |s|
    ensures forall i :: 0 <= i < |s| && !IsCased(s[i]) ==> r[i] == s[i]
    ensures forall i :: 0 <= i < |s| && IsCased(s[i]) ==>
      && ToLower(r[i]) == ToLower(s[i])
      && (IsUpper(r[i]) <==> if i == 0 then !afterCased else !IsCased(s[i - 1]))
  {
    if s == [] then []
    else
      var c := if afterCased then ToLower(s[0]) else ToUpper(s[0]);
      var r := [c] + TitleFrom(s[1..], IsCased(s[0]));
      assert forall i :: 1 <= i < |s| ==> s[1..][i - 1] == s[i] && r[i] == TitleFrom(s[1..], IsCased(s[0]))[i - 1];
      r
  }

  /** `s.title()`. */
  function Title(s: string): (r: string)
    ensures |r| == |s|
    ensures forall i :: 0 <= i < |s| && !IsCased(s[i]) ==> r[i] == s[i]
    ensures forall i :: 0 <= i < |s| && IsCased(s[i]) ==>
      && ToLower(r[i]) == ToLower(s[i])
      && (IsUpper(r[i]) <==> i == 0 || !IsCased(s[i - 1]))
  {
    TitleFrom(s, false)
  }
}
