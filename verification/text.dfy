/** The string operations the modelled program uses, over `seq<char>`.

    Each function follows the behaviour of the corresponding Python `str`
    method: `strip()`, `lower()`, `startswith`, the `in` substring test,
    `find`/`partition`, `replace(pat, "")`, `split(sep)` and `sep.join(xs)`.
    Whitespace and case are restricted to ASCII.
 */
module Text {
  import opened Outcomes

  // ---------------------------------------------------------------------
  // Whitespace and strip()
  // ---------------------------------------------------------------------

  /** The ASCII characters for which Python's `str.isspace` holds. */
  predicate IsSpace(c: char) {
    c == ' ' || c == '\t' || c == '\n' || c == '\r'
    || c == '\U{000B}' || c == '\U{000C}'
    || ('\U{001C}' <= c && c <= '\U{001F}')
  }

  predicate AllSpace(s: string) {
    forall i :: 0 <= i < |s| ==> IsSpace(s[i])
  }

  /** `s` has no leading and no trailing whitespace, i.e. `s.strip() == s`. */
  predicate IsStripped(s: string) {
    s == [] || (!IsSpace(s[0]) && !IsSpace(s[|s| - 1]))
  }

  /** `s.lstrip()`. */
  function TrimStart(s: string): string
    decreases |s|
  {
    if |s| > 0 && IsSpace(s[0]) then TrimStart(s[1..]) else s
  }

  /** `lstrip()` drops the longest all-whitespace prefix. */
  lemma {:induction false} TrimStartShape(s: string)
    ensures var r := TrimStart(s);
      && |r| <= |s| && r == s[|s| - |r|..]
      && AllSpace(s[..|s| - |r|])
      && (r == [] || !IsSpace(r[0]))
    decreases |s|
  {
    if |s| > 0 && IsSpace(s[0]) {
      var r := TrimStart(s[1..]);
      TrimStartShape(s[1..]);
      SpacesCons(s, |s| - |r|);
    } else {
      assert s[..0] == [];
    }
  }

  /** A whitespace character in front of an all-whitespace prefix. */
  lemma SpacesCons(s: string, n: nat)
    requires 0 < n <= |s| && IsSpace(s[0]) && AllSpace(s[1..][..n - 1])
    ensures AllSpace(s[..n])
  {
    forall i | 0 <= i < n
      ensures IsSpace(s[..n][i])
    {
      if i > 0 {
        assert s[..n][i] == s[1..][..n - 1][i - 1];
      }
    }
  }

  /** `s.rstrip()`. */
  function TrimEnd(s: string): string
    decreases |s|
  {
    if |s| > 0 && IsSpace(s[|s| - 1]) then TrimEnd(s[..|s| - 1]) else s
  }

  /** `rstrip()` drops the longest all-whitespace suffix. */
  lemma {:induction false} TrimEndShape(s: string)
    ensures var r := TrimEnd(s);
      && |r| <= |s| && r == s[..|r|]
      && AllSpace(s[|r|..])
      && (r == [] || !IsSpace(r[|r| - 1]))
    decreases |s|
  {
    if |s| > 0 && IsSpace(s[|s| - 1]) {
      var r := TrimEnd(s[..|s| - 1]);
      TrimEndShape(s[..|s| - 1]);
      SpacesSnoc(s, |r|);
    } else {
      assert s[|s|..] == [];
    }
  }

  /** An all-whitespace suffix followed by a whitespace character. */
  lemma SpacesSnoc(s: string, n: nat)
    requires n < |s| && IsSpace(s[|s| - 1]) && AllSpace(s[..|s| - 1][n..])
    ensures AllSpace(s[n..])
  {
    forall i | 0 <= i < |s| - n
      ensures IsSpace(s[n..][i])
    {
      if i < |s| - 1 - n {
        assert s[n..][i] == s[..|s| - 1][n..][i];
      }
    }
  }

  /** `s.strip()`. The result is stripped, and it is empty exactly when `s`
      is all whitespace; `StripPadded` shows it is the unique stripped core
      of `s`. */
  function Strip(s: string): (r: string)
    ensures IsStripped(r)
    ensures |r| <= |s|
    ensures r == [] <==> AllSpace(s)
  {
    var t := TrimStart(s);
    TrimStartShape(s);
    var r := TrimEnd(t);
    TrimEndShape(t);
    assert r == [] ==> s == s[..|s| - |t|] + t[|r|..];
    assert r != [] ==> r[0] == t[0];
    assert r != [] ==> !AllSpace(s) by {
      if r != [] {
        assert s[|s| - |t|] == t[0];
      }
    }
    r
  }

  /** `strip()` only removes characters. */
  lemma StripChars(s: string)
    ensures forall c :: c in Strip(s) ==> c in s
  {
    var t := TrimStart(s);
    var r := TrimEnd(t);
    TrimStartShape(s);
    TrimEndShape(t);
    assert r == s[|s| - |t|..][..|r|];
    assert forall c :: c in s[|s| - |t|..] ==> c in s;
  }

  lemma {:induction false} TrimStartOfSpaces(a: string, x: string)
    requires AllSpace(a)
    requires x == [] || !IsSpace(x[0])
    ensures TrimStart(a + x) == x
    decreases |a|
  {
    if a == [] {
      assert a + x == x;
    } else {
      assert (a + x)[1..] == a[1..] + x;
      TrimStartOfSpaces(a[1..], x);
    }
  }

  lemma {:induction false} TrimEndOfSpaces(x: string, b: string)
    requires AllSpace(b)
    requires x == [] || !IsSpace(x[|x| - 1])
    ensures TrimEnd(x + b) == x
    decreases |b|
  {
    if b == [] {
      assert x + b == x;
    } else {
      assert (x + b)[..|x + b| - 1] == x + b[..|b| - 1];
      TrimEndOfSpaces(x, b[..|b| - 1]);
    }
  }

  /** Stripping a stripped string surrounded by whitespace gives back that
      string: together with `Strip`'s contract this pins `Strip(s)` down as
      the one stripped middle part of `s`. */
  lemma StripPadded(a: string, x: string, b: string)
    requires AllSpace(a) && AllSpace(b) && IsStripped(x)
    ensures Strip(a + x + b) == x
  {
    if x == [] {
      assert AllSpace(a + x + b) by {
        forall i | 0 <= i < |a + x + b|
          ensures IsSpace((a + x + b)[i])
        {
          if i < |a| { assert (a + x + b)[i] == a[i]; }
          else { assert (a + x + b)[i] == b[i - |a|]; }
        }
      }
    } else {
      assert a + x + b == a + (x + b);
      TrimStartOfSpaces(a, x + b);
      TrimEndOfSpaces(x, b);
    }
  }

  /** `strip()` is idempotent. */
  lemma StripIdempotent(s: string)
    ensures Strip(Strip(s)) == Strip(s)
  {
    var r := Strip(s);
    assert [] + r + [] == r;
    StripPadded([], r, []);
  }

  /** `strip()` changes exactly the strings that are not stripped, and then
      it makes them shorter. */
  lemma StripFixesExactlyStripped(s: string)
    ensures Strip(s) == s <==> IsStripped(s)
    ensures !IsStripped(s) ==> |Strip(s)| < |s|
  {
    if IsStripped(s) {
      assert [] + s + [] == s;
      StripPadded([], s, []);
    } else {
      var t := TrimStart(s);
      var r := TrimEnd(t);
      TrimStartShape(s);
      TrimEndShape(t);
      assert |r| == |s| ==> r == s by {
        if |r| == |s| {
          assert t == s[0..] == s;
        }
      }
    }
  }

  // ---------------------------------------------------------------------
  // lower()
  // ---------------------------------------------------------------------

  function LowerChar(c: char): char {
    if 'A' <= c && c <= 'Z' then (c as int - 'A' as int + 'a' as int) as char else c
  }

  /** `s.lower()`, restricted to ASCII letters. */
  function Lower(s: string): (r: string)
    ensures |r| == |s|
    ensures forall i :: 0 <= i < |s| ==> r[i] == LowerChar(s[i])
  {
    seq(|s|, i requires 0 <= i < |s| => LowerChar(s[i]))
  }

  // ---------------------------------------------------------------------
  // Prefixes, substrings, find / partition / replace
  // ---------------------------------------------------------------------

  /** `s.startswith(p)`. */
  predicate StartsWith(s: string, p: string) {
    |p| <= |s| && s[..|p|] == p
  }

  /** `p in s` (substring test). */
  predicate Contains(s: string, p: string)
    decreases |s|
  {
    StartsWith(s, p) || (|s| > 0 && Contains(s[1..], p))
  }

  lemma {:induction false} ContainsNeedsRoom(s: string, p: string)
    requires Contains(s, p)
    ensures |p| <= |s|
    decreases |s|
  {
    if !StartsWith(s, p) {
      ContainsNeedsRoom(s[1..], p);
    }
  }

  /** A pattern whose first character never occurs in `s` is not in `s`. */
  lemma {:induction false} FirstCharAbsent(s: string, p: string)
    requires |p| > 0 && p[0] !in s
    ensures !Contains(s, p)
    decreases |s|
  {
    if |s| > 0 {
      assert s[0] != p[0];
      FirstCharAbsent(s[1..], p);
    }
  }

  /** Index of the first occurrence of `p` in `s` (`s.find(p)`, with `None`
      for -1). */
  function Find(s: string, p: string): (r: Option<nat>)
    requires |p| > 0
    ensures r.Some? <==> Contains(s, p)
    ensures r.Some? ==> r.value + |p| <= |s| && s[r.value..r.value + |p|] == p
    decreases |s|
  {
    if StartsWith(s, p) then Some(0)
    else if |s| == 0 then None
    else
      match Find(s[1..], p)
      case None => None
      case Some(i) => Some(i + 1)
  }

  /** `Find` reports the first occurrence. */
  lemma {:induction false} FindFirst(s: string, p: string)
    requires |p| > 0 && Find(s, p).Some?
    ensures forall i :: 0 <= i < Find(s, p).value ==> !StartsWith(s[i..], p)
    decreases |s|
  {
    if !StartsWith(s, p) {
      FindFirst(s[1..], p);
      assert forall j :: 1 <= j <= Find(s, p).value ==> s[j..] == s[1..][j - 1..];
      assert s[0..] == s;
    }
  }

  /** `s.partition(p)`: the text before the first occurrence of `p`, `p`
      itself, and the text after it; `(s, "", "")` when `p` does not occur.
      Python raises for an empty separator, hence the precondition. */
  function Partition(s: string, p: string): (r: (string, string, string))
    requires |p| > 0
    ensures r.0 + r.1 + r.2 == s
    ensures Contains(s, p) ==> r.1 == p
    ensures !Contains(s, p) ==> r == (s, "", "")
    ensures forall i :: 0 <= i < |r.0| ==> !StartsWith(s[i..], p)
  {
    match Find(s, p)
    case None =>
      assert forall i :: 0 <= i < |s| ==> !StartsWith(s[i..], p) by {
        forall i | 0 <= i < |s| ensures !StartsWith(s[i..], p) {
          NoMatchAt(s, p, i);
        }
      }
      (s, "", "")
    case Some(i) =>
      FindFirst(s, p);
      assert s == s[..i] + p + s[i + |p|..];
      (s[..i], p, s[i + |p|..])
  }

  lemma {:induction false} FoundAtMeansContains(s: string, p: string, i: nat)
    requires i <= |s| && StartsWith(s[i..], p)
    ensures Contains(s, p)
    decreases i
  {
    if i > 0 {
      assert s[i..] == s[1..][i - 1..];
      FoundAtMeansContains(s[1..], p, i - 1);
    }
  }

  /** An occurrence survives appending text. */
  lemma {:induction false} ContainsExtendRight(s: string, t: string, p: string)
    requires Contains(s, p)
    ensures Contains(s + t, p)
    decreases |s|
  {
    if StartsWith(s, p) {
      assert (s + t)[..|p|] == s[..|p|];
    } else {
      assert (s + t)[1..] == s[1..] + t;
      ContainsExtendRight(s[1..], t, p);
    }
  }

  /** An occurrence survives prepending text. */
  lemma {:induction false} ContainsExtendLeft(t: string, s: string, p: string)
    requires Contains(s, p)
    ensures Contains(t + s, p)
    decreases |t|
  {
    if t == [] {
      assert t + s == s;
    } else {
      assert (t + s)[1..] == t[1..] + s;
      ContainsExtendLeft(t[1..], s, p);
    }
  }

  /** The contrapositive of `FoundAtMeansContains`. */
  lemma {:induction false} NoMatchAt(s: string, p: string, i: nat)
    requires i <= |s| && !Contains(s, p)
    ensures !StartsWith(s[i..], p)
    decreases i
  {
    if i > 0 {
      assert s[i..] == s[1..][i - 1..];
      NoMatchAt(s[1..], p, i - 1);
    } else {
      assert s[0..] == s;
    }
  }

  /** `s.replace(p, "")`: removes the non-overlapping occurrences of `p`,
      scanning from the left. */
  function RemoveAll(s: string, p: string): (r: string)
    requires |p| > 0
    ensures |r| <= |s|
    ensures !Contains(s, p) ==> r == s
    decreases |s|
  {
    if |s| == 0 then s
    else if StartsWith(s, p) then RemoveAll(s[|p|..], p)
    else [s[0]] + RemoveAll(s[1..], p)
  }

  /** An occurrence at the head is dropped whole. */
  lemma RemoveAllHead(p: string, rest: string)
    requires |p| > 0
    ensures RemoveAll(p + rest, p) == RemoveAll(rest, p)
  {
    assert (p + rest)[..|p|] == p;
    assert (p + rest)[|p|..] == rest;
  }

  /** A character that is not part of `p` ends every occurrence search: when
      `x` has no occurrence of `p`, none starts inside `x + [c]`. */
  lemma {:induction false} NoMatchAcrossBarrier(x: string, c: char, y: string, p: string)
    requires |p| > 0 && c !in p && !Contains(x, p)
    ensures forall i :: 0 <= i <= |x| ==> !StartsWith((x + [c] + y)[i..], p)
    decreases |x|
  {
    var s := x + [c] + y;
    forall i | 0 <= i <= |x|
      ensures !StartsWith(s[i..], p)
    {
      if i + |p| <= |x| {
        NoMatchAt(x, p, i);
        assert s[i..][..|p|] == x[i..][..|p|];
      } else {
        assert s[i..][|x| - i] == c;
      }
    }
  }

  lemma BarrierBlocksStart(x: string, c: char, y: string, p: string)
    requires |p| > 0 && c !in p && !Contains(x, p)
    ensures !StartsWith(x + [c] + y, p)
  {
    var s := x + [c] + y;
    if |p| <= |x| {
      assert s[..|p|] == x[..|p|];
    } else {
      assert s[|x|] == c;
    }
  }

  /** Past a non-match at its head, `Find` reports the position found in
      the tail, shifted by one. */
  lemma FindPastHead(s: string, p: string)
    requires |p| > 0 && |s| > 0 && !StartsWith(s, p)
    ensures Find(s, p).Some? == Find(s[1..], p).Some?
    ensures Find(s, p).Some? ==> Find(s, p).value == Find(s[1..], p).value + 1
  {
  }

  /** `Find` skips over a barrier-terminated prefix that holds no match. */
  lemma {:induction false} FindAfterBarrier(x: string, c: char, y: string, p: string)
    requires |p| > 0 && c !in p && !Contains(x, p)
    ensures Find(x + [c] + y, p).Some? == Find(y, p).Some?
    ensures Find(y, p).Some? ==> Find(x + [c] + y, p).value == Find(y, p).value + |x| + 1
    decreases |x|
  {
    var s := x + [c] + y;
    assert !StartsWith(s, p) by {
      BarrierBlocksStart(x, c, y, p);
    }
    FindPastHead(s, p);
    if x == [] {
      assert s[1..] == y;
    } else {
      assert s[1..] == x[1..] + [c] + y;
      assert !Contains(x[1..], p);
      FindAfterBarrier(x[1..], c, y, p);
    }
  }

  /** `RemoveAll` copies a barrier-terminated prefix that holds no match. */
  lemma {:induction false} RemoveAllAfterBarrier(x: string, c: char, y: string, p: string)
    requires |p| > 0 && c !in p && !Contains(x, p)
    ensures RemoveAll(x + [c] + y, p) == x + [c] + RemoveAll(y, p)
    decreases |x|
  {
    NoMatchAcrossBarrier(x, c, y, p);
    var s := x + [c] + y;
    assert s[0..] == s;
    if x == [] {
      assert s[1..] == y;
    } else {
      assert s[1..] == x[1..] + [c] + y;
      RemoveAllAfterBarrier(x[1..], c, y, p);
    }
  }

  /** An occurrence of `p` at the head of `p + [a] + x + [b]` is the only
      one when neither `a` nor `b` is part of `p` and `x` holds none. */
  lemma RemoveHeadBetweenBarriers(p: string, a: char, x: string, b: char)
    requires |p| > 0 && a !in p && b !in p && !Contains(x, p)
    ensures RemoveAll(p + [a] + x + [b], p) == [a] + x + [b]
  {
    var tail := x + [b];
    var rest := [a] + tail;
    assert p + [a] + x + [b] == p + rest;
    RemoveAllHead(p, rest);
    assert RemoveAll(rest, p) == [a] + RemoveAll(tail, p) by {
      assert rest[0] != p[0];
      assert rest[1..] == tail;
    }
    assert RemoveAll(tail, p) == tail by {
      RemoveAllAfterBarrier(x, b, [], p);
      assert x + [b] + [] == tail;
    }
  }

  // ---------------------------------------------------------------------
  // split(sep) and sep.join(xs)
  // ---------------------------------------------------------------------

  /** `s.split(c)` for a one-character separator: the maximal separator-free
      fields, always at least one. */
  function Split(s: string, c: char): (r: seq<string>)
    ensures |r| >= 1
    ensures forall i :: 0 <= i < |r| ==> c !in r[i]
    decreases |s|
  {
    if |s| == 0 then [""]
    else
      var rest := Split(s[1..], c);
      if s[0] == c then [""] + rest
      else [[s[0]] + rest[0]] + rest[1..]
  }

  /** `sep.join(xs)`. */
  function Join(xs: seq<string>, sep: string): string
    decreases |xs|
  {
    if |xs| == 0 then ""
    else if |xs| == 1 then xs[0]
    else xs[0] + sep + Join(xs[1..], sep)
  }

  /** Joining the fields of a split with the separator restores the input. */
  lemma {:induction false} JoinSplit(s: string, c: char)
    ensures Join(Split(s, c), [c]) == s
    decreases |s|
  {
    if |s| > 0 {
      var rest := Split(s[1..], c);
      JoinSplit(s[1..], c);
      if s[0] == c {
        assert Split(s, c)[1..] == rest;
      } else {
        var r := Split(s, c);
        if |rest| == 1 {
          assert r == [[s[0]] + rest[0]];
        } else {
          assert r[1..] == rest[1..];
        }
      }
    }
  }

  /** A separator splits the text into the fields of either side. */
  lemma {:induction false} SplitConcat(a: string, c: char, b: string)
    ensures Split(a + [c] + b, c) == Split(a, c) + Split(b, c)
    decreases |a|
  {
    var s := a + [c] + b;
    if a == [] {
      assert s[1..] == b;
    } else {
      assert s[1..] == a[1..] + [c] + b;
      SplitConcat(a[1..], c, b);
    }
  }

  /** Appending one more item adds one separator and the item. */
  lemma {:induction false} JoinAppend(xs: seq<string>, x: string, sep: string)
    requires |xs| > 0
    ensures Join(xs + [x], sep) == Join(xs, sep) + sep + x
    decreases |xs|
  {
    if |xs| == 1 {
      assert xs + [x] == [xs[0], x];
      assert Join([x], sep) == x;
    } else {
      assert (xs + [x])[1..] == xs[1..] + [x];
      JoinAppend(xs[1..], x, sep);
    }
  }
}
