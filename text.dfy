/**
 * The few Python `str` operations the bridge relies on, over `seq<char>`:
 * `strip`, `lower` (ASCII letters only), `startswith`, `split(sep, 1)`,
 * `replace(pat, "")`, `"\n".join` and the decimal rendering of an `int`
 * inside an f-string. `Split` (on one character) is not used by the bridge:
 * it is here so that a joined reply can be read back line by line.
 */
module Text {
  import opened Wrappers

  // ---------------------------------------------------------------------------
  // Character classes

  /** Python's `str.isspace`, the set of characters `str.strip()` removes. */
  predicate IsSpace(c: char) {
    || ('\t' <= c <= '\r')                 // \t \n \v \f \r
    || ('\U{1C}' <= c <= '\U{1F}')         // file, group, record, unit separators
    || c == ' ' || c == '\U{85}' || c == '\U{A0}' || c == '\U{1680}'
    || ('\U{2000}' <= c <= '\U{200A}')
    || c == '\U{2028}' || c == '\U{2029}' || c == '\U{202F}' || c == '\U{205F}'
    || c == '\U{3000}'
  }

  /** Every character of `s` from index `lo` up to `hi` is white space. */
  predicate AllSpace(s: string, lo: nat, hi: nat)
    requires hi <= |s|
  {
    forall k :: lo <= k < hi ==> IsSpace(s[k])
  }

  predicate IsUpper(c: char) {
    'A' <= c <= 'Z'
  }

  /** No character of `s` is an upper-case ASCII letter. */
  predicate NoUpper(s: string) {
    forall k :: 0 <= k < |s| ==> !IsUpper(s[k])
  }

  predicate IsDigit(c: char) {
    '0' <= c <= '9'
  }

  predicate AllDigits(s: string) {
    forall k :: 0 <= k < |s| ==> IsDigit(s[k])
  }

  // ---------------------------------------------------------------------------
  // lower()

  function LowerChar(c: char): (d: char)
    ensures !IsUpper(d)
    ensures !IsUpper(c) ==> d == c
    ensures IsUpper(c) ==> d == (c as int + 32) as char && 'a' <= d <= 'z'
    ensures IsSpace(d) == IsSpace(c)
  {
    if IsUpper(c) then (c as int + 32) as char else c
  }

  /** `s.lower()`, restricted to the ASCII letters. */
  function Lower(s: string): (r: string)
    ensures |r| == |s|
    ensures NoUpper(r)
    ensures forall k :: 0 <= k < |s| && !IsUpper(s[k]) ==> r[k] == s[k]
    ensures forall k :: 0 <= k < |s| && IsUpper(s[k]) ==> r[k] == (s[k] as int + 32) as char
  {
    seq(|s|, k requires 0 <= k < |s| => LowerChar(s[k]))
  }

  /** `lower()` leaves a text without upper-case letters as it is. */
  lemma LowerIdentity(s: string)
    requires NoUpper(s)
    ensures Lower(s) == s
  {
    var r := Lower(s);
    assert forall k :: 0 <= k < |s| ==> r[k] == s[k];
  }

  // ---------------------------------------------------------------------------
  // strip()

  /** `s.lstrip()`: the suffix left once the leading white space is gone. */
  function TrimLeft(s: string): (r: string)
    ensures |r| <= |s| && r == s[|s| - |r|..]
    ensures r == [] || !IsSpace(r[0])
    ensures AllSpace(s, 0, |s| - |r|)
    decreases |s|
  {
    if s != [] && IsSpace(s[0]) then TrimLeft(s[1..]) else s
  }

  /** `s.rstrip()`: the prefix left once the trailing white space is gone. */
  function TrimRight(s: string): (r: string)
    ensures |r| <= |s| && r == s[..|r|]
    ensures r == [] || !IsSpace(r[|r| - 1])
    ensures AllSpace(s, |r|, |s|)
    decreases |s|
  {
    if s != [] && IsSpace(s[|s| - 1]) then TrimRight(s[..|s| - 1]) else s
  }

  /** `s.strip()`: the slice of `s` left once white space is removed from both
      ends; it neither starts nor ends with white space. */
  function Strip(s: string): (r: string)
    ensures |r| <= |s|
    ensures r == [] || (!IsSpace(r[0]) && !IsSpace(r[|r| - 1]))
    ensures NoUpper(s) ==> NoUpper(r)
  {
    var l := TrimLeft(s);
    var r := TrimRight(l);
    TrimmedEnds(s, l, r);
    r
  }

  /** What `strip()` keeps is a piece of the text with only white space
      before it and only white space after it. */
  lemma StripIsPadded(s: string)
    ensures PaddedAt(s, 0, |s| - |TrimLeft(s)|, Strip(s))
  {
    var l := TrimLeft(s);
    var r := TrimRight(l);
    assert Strip(s) == r;
    TrimmedIsPadded(s, l, r);
  }

  /** A left trim followed by a right trim leaves a piece of the text with
      no white space at either of its ends. */
  lemma TrimmedEnds(s: string, l: string, r: string)
    requires |l| <= |s| && l == s[|s| - |l|..]
    requires |r| <= |l| && r == l[..|r|]
    requires l == [] || !IsSpace(l[0])
    requires r == [] || !IsSpace(r[|r| - 1])
    ensures r == [] || (!IsSpace(r[0]) && !IsSpace(r[|r| - 1]))
    ensures NoUpper(s) ==> NoUpper(r)
  {
    var i := |s| - |l|;
    assert forall k :: 0 <= k < |r| ==> r[k] == s[i + k];
    if r != [] {
      assert r[0] == l[0];
    }
  }

  /** A left trim followed by a right trim leaves a piece of the text with
      only white space before and after it. */
  lemma TrimmedIsPadded(s: string, l: string, r: string)
    requires |l| <= |s| && l == s[|s| - |l|..]
    requires |r| <= |l| && r == l[..|r|]
    requires AllSpace(s, 0, |s| - |l|)
    requires AllSpace(l, |r|, |l|)
    ensures PaddedAt(s, 0, |s| - |l|, r)
  {
    var i := |s| - |l|;
    assert s[i..i + |r|] == r;
    forall k | i + |r| <= k < |s| ensures IsSpace(s[k]) {
      assert s[k] == l[k - i];
    }
  }

  /** `piece` sits at index `i` of `t`, and everything from `from` up to it
      and everything after it is white space. */
  predicate PaddedAt(t: string, from: nat, i: nat, piece: string) {
    && from <= i && i + |piece| <= |t| && t[i..i + |piece|] == piece
    && AllSpace(t, from, i) && AllSpace(t, i + |piece|, |t|)
  }

  /** `strip()` of the text from index `from` on is a piece of the text with
      only white space between `from` and it, and only white space after it. */
  lemma StripSuffixPadded(t: string, from: nat)
    requires from <= |t|
    ensures exists i :: PaddedAt(t, from, i, Strip(t[from..]))
  {
    var rest := t[from..];
    var i := |rest| - |TrimLeft(rest)|;
    StripIsPadded(rest);
    PaddedShift(t, from, i, Strip(rest));
    assert PaddedAt(t, from, from + i, Strip(t[from..]));
  }

  /** A piece padded within the text from `from` on is padded in the whole text. */
  lemma PaddedShift(t: string, from: nat, i: nat, piece: string)
    requires from <= |t| && PaddedAt(t[from..], 0, i, piece)
    ensures PaddedAt(t, from, from + i, piece)
  {
    var rest := t[from..];
    assert t[from + i..from + i + |piece|] == rest[i..i + |piece|];
    assert forall k :: from <= k < |t| ==> t[k] == rest[k - from];
  }

  /** A text with no white space at either end is its own `strip()`. */
  lemma StripUnpadded(s: string)
    requires s == [] || (!IsSpace(s[0]) && !IsSpace(s[|s| - 1]))
    ensures Strip(s) == s
  {
    assert TrimLeft(s) == s;
    assert TrimRight(s) == s;
  }

  /** One leading white-space character goes in `strip()`. */
  lemma StripLeadingSpace(c: char, s: string)
    requires IsSpace(c)
    requires s == [] || (!IsSpace(s[0]) && !IsSpace(s[|s| - 1]))
    ensures Strip([c] + s) == s
  {
    var cs := [c] + s;
    assert cs[0] == c && cs[1..] == s;
    assert TrimLeft(cs) == TrimLeft(cs[1..]);
    assert TrimLeft(s) == s;
    assert TrimRight(s) == s;
  }

  /** One white-space character at each end of a non-empty text goes in `strip()`. */
  lemma StripBothSpaces(c: char, s: string, d: char)
    requires IsSpace(c) && IsSpace(d)
    requires s != [] && !IsSpace(s[0]) && !IsSpace(s[|s| - 1])
    ensures Strip([c] + s + [d]) == s
  {
    var sd := s + [d];
    var cs := [c] + sd;
    assert cs == [c] + s + [d];
    TrimLeftDropsSpace(c, sd);
    TrimLeftKeeps(sd);
    TrimRightDropsSpace(s, d);
    StripIsTrims(cs);
  }

  lemma StripIsTrims(s: string)
    ensures Strip(s) == TrimRight(TrimLeft(s))
  {
  }

  /** `lstrip()` leaves a text that starts with a non-space character alone. */
  lemma TrimLeftKeeps(s: string)
    requires s != [] && !IsSpace(s[0])
    ensures TrimLeft(s) == s
  {
  }

  /** A white-space character at the start goes in `lstrip()`. */
  lemma TrimLeftDropsSpace(c: char, s: string)
    requires IsSpace(c)
    ensures TrimLeft([c] + s) == TrimLeft(s)
  {
    assert ([c] + s)[1..] == s;
  }

  /** A white-space character at the end goes in `rstrip()`, and what is left
      keeps its non-space last character. */
  lemma TrimRightDropsSpace(s: string, d: char)
    requires IsSpace(d)
    requires s != [] && !IsSpace(s[|s| - 1])
    ensures TrimRight(s + [d]) == s
  {
    var sd := s + [d];
    assert sd[..|sd| - 1] == s;
    assert TrimRight(sd) == TrimRight(s);
  }

  // ---------------------------------------------------------------------------
  // startswith(), split(sep, 1), replace(pat, "")

  predicate StartsWith(s: string, prefix: string) {
    |prefix| <= |s| && s[..|prefix|] == prefix
  }

  /** A prefix of `a` is a prefix of `a + b`. */
  lemma StartsWithAppend(a: string, b: string, prefix: string)
    requires StartsWith(a, prefix)
    ensures StartsWith(a + b, prefix)
  {
    assert (a + b)[..|prefix|] == a[..|prefix|];
  }

  /** `pat` occurs in `s` at index `i`. */
  predicate OccursAt(s: string, pat: string, i: int) {
    0 <= i && i + |pat| <= |s| && s[i..i + |pat|] == pat
  }

  /** The index of the first occurrence of `pat` in `s` at or after `from`: `s.find(pat, from)`. */
  function FindFrom(s: string, pat: string, from: nat): (r: Option<nat>)
    ensures r.Some? ==> from <= r.value && OccursAt(s, pat, r.value)
    ensures r.Some? ==> forall j :: from <= j < r.value ==> !OccursAt(s, pat, j)
    ensures r.None? ==> forall j :: from <= j ==> !OccursAt(s, pat, j)
    decreases |s| - from
  {
    if |s| < from + |pat| then None
    else if s[from..from + |pat|] == pat then Some(from)
    else FindFrom(s, pat, from + 1)
  }

  /** `s.split(sep, 1)[1]`: what follows the first occurrence of `sep`;
      `None` where Python raises `IndexError` because `sep` does not occur. */
  function AfterFirst(s: string, sep: string): (r: Option<string>)
    ensures r.None? <==> forall j :: !OccursAt(s, sep, j)
    ensures StartsWith(s, sep) ==> r == Some(s[|sep|..])
  {
    match FindFrom(s, sep, 0)
    case None => None
    case Some(i) =>
      assert StartsWith(s, sep) ==> OccursAt(s, sep, 0);
      Some(s[i + |sep|..])
  }

  /** `s.replace(pat, "")`: one left-to-right pass that deletes each
      non-overlapping occurrence of `pat`. */
  function RemoveAll(s: string, pat: string): (r: string)
    requires pat != []
    ensures |r| <= |s|
    ensures NoUpper(s) ==> NoUpper(r)
    decreases |s|
  {
    if |s| < |pat| then s
    else if s[..|pat|] == pat then RemoveAll(s[|pat|..], pat)
    else [s[0]] + RemoveAll(s[1..], pat)
  }

  /** An occurrence begins with the pattern's first character. */
  lemma OccursAtHead(s: string, pat: string, j: int)
    requires pat != [] && OccursAt(s, pat, j)
    ensures s[j] == pat[0]
  {
    assert s[j..j + |pat|][0] == s[j];
  }

  /** `replace` deletes a leading occurrence and carries on after it. */
  lemma RemoveAllDropsLeading(pat: string, m: string)
    requires pat != []
    ensures RemoveAll(pat + m, pat) == RemoveAll(m, pat)
  {
    var s := pat + m;
    assert s[..|pat|] == pat && s[|pat|..] == m;
  }

  /** An occurrence in the tail of `s` is an occurrence in `s`, one place later, and back. */
  lemma OccursShiftAt(s: string, pat: string, j: nat)
    requires s != []
    ensures OccursAt(s[1..], pat, j) <==> OccursAt(s, pat, j + 1)
  {
    if j + 1 + |pat| <= |s| {
      assert s[1..][j..j + |pat|] == s[j + 1..j + 1 + |pat|];
    }
  }

  /** Where `pat` does not start the text, `replace` keeps the first
      character and carries on with the rest. */
  lemma RemoveAllStep(s: string, pat: string)
    requires pat != [] && s != [] && !OccursAt(s, pat, 0)
    ensures |s| < |pat| ==> RemoveAll(s, pat) == s
    ensures |s| >= |pat| ==> RemoveAll(s, pat) == [s[0]] + RemoveAll(s[1..], pat)
  {
    if |s| >= |pat| {
      assert s[0..|pat|] == s[..|pat|];
    }
  }

  /** With no occurrence of `pat` starting before `i`, `replace` copies the
      first `i` characters unchanged. */
  lemma {:induction false} RemoveAllKeepsPrefix(s: string, pat: string, i: nat)
    requires pat != [] && i <= |s|
    requires forall j :: 0 <= j < i ==> !OccursAt(s, pat, j)
    ensures RemoveAll(s, pat) == s[..i] + RemoveAll(s[i..], pat)
    decreases i
  {
    if i == 0 {
      assert s[..0] == [] && s[0..] == s;
    } else if |s| < |pat| {
      var rest := s[i..];
      assert |rest| < |pat| && RemoveAll(rest, pat) == rest;
      assert RemoveAll(s, pat) == s == s[..i] + rest;
    } else {
      NoOccurrenceInTail(s, pat, i);
      RemoveAllKeepsPrefix(s[1..], pat, i - 1);
      RemoveAllKeepsHead(s, pat, i);
    }
  }

  /** No occurrence before `i` in `s` means none before `i - 1` in its tail. */
  lemma NoOccurrenceInTail(s: string, pat: string, i: nat)
    requires 0 < i <= |s|
    requires forall j :: 0 <= j < i ==> !OccursAt(s, pat, j)
    ensures forall j :: 0 <= j < i - 1 ==> !OccursAt(s[1..], pat, j)
  {
    forall j | 0 <= j < i - 1 ensures !OccursAt(s[1..], pat, j) {
      OccursShiftAt(s, pat, j);
    }
  }

  /** The induction step of `RemoveAllKeepsPrefix`: the first character is kept
      in front of what the tail gives. */
  lemma RemoveAllKeepsHead(s: string, pat: string, i: nat)
    requires pat != [] && 0 < i <= |s| && |pat| <= |s| && !OccursAt(s, pat, 0)
    requires RemoveAll(s[1..], pat) == s[1..][..i - 1] + RemoveAll(s[1..][i - 1..], pat)
    ensures RemoveAll(s, pat) == s[..i] + RemoveAll(s[i..], pat)
  {
    var tail := s[1..];
    RemoveAllStep(s, pat);
    calc {
      RemoveAll(s, pat);
      [s[0]] + RemoveAll(tail, pat);
      [s[0]] + (tail[..i - 1] + RemoveAll(tail[i - 1..], pat));
      { assert tail[i - 1..] == s[i..]; }
      ([s[0]] + tail[..i - 1]) + RemoveAll(s[i..], pat);
      { assert [s[0]] + tail[..i - 1] == s[..i]; }
      s[..i] + RemoveAll(s[i..], pat);
    }
  }

  /** `replace` scans left to right: the text before the first occurrence of
      `pat` is kept, that occurrence is deleted, and the scan resumes right
      after it; with no occurrence the text is unchanged. */
  lemma RemoveAllScan(s: string, pat: string)
    requires pat != []
    ensures FindFrom(s, pat, 0).None? ==> RemoveAll(s, pat) == s
    ensures FindFrom(s, pat, 0).Some? ==>
              var i := FindFrom(s, pat, 0).value;
              RemoveAll(s, pat) == s[..i] + RemoveAll(s[i + |pat|..], pat)
  {
    var f := FindFrom(s, pat, 0);
    if f.None? {
      RemoveAllKeepsPrefix(s, pat, |s|);
      assert s[..|s|] == s;
    } else {
      var i := f.value;
      RemoveAllKeepsPrefix(s, pat, i);
      var rest := s[i..];
      assert rest[..|pat|] == pat;
      assert rest[|pat|..] == s[i + |pat|..];
    }
  }

  /** A single pass can leave `pat` behind: removing "count" from "cocountunt"
      joins the two halves around it into a new "count". */
  lemma RemoveAllIsSinglePass()
    ensures RemoveAll("cocountunt", "count") == "count"
  {
    var s := "cocountunt";
    assert s[..5][2] != "count"[2];
    assert s[1..][..5][0] != "count"[0];
    assert s[2..][..5] == "count";
    assert s[2..][5..] == "unt";
    assert RemoveAll("unt", "count") == "unt";
  }

  // ---------------------------------------------------------------------------
  // "\n".join(lines) and s.split("\n")

  /** `[sep].join(lines)`. */
  function Join(lines: seq<string>, sep: char): (r: string)
    ensures lines != [] ==> StartsWith(r, lines[0])
    decreases |lines|
  {
    if lines == [] then ""
    else if |lines| == 1 then lines[0]
    else lines[0] + [sep] + Join(lines[1..], sep)
  }

  /** Joining a head onto a non-empty rest puts one separator between them. */
  lemma JoinCons(head: string, rest: seq<string>, sep: char)
    requires rest != []
    ensures Join([head] + rest, sep) == head + [sep] + Join(rest, sep)
  {
    assert ([head] + rest)[1..] == rest;
  }

  /** Three pieces joined one after the other, then the rest. */
  lemma JoinThreeThenRest(a: string, b: string, c: string, rest: seq<string>, sep: char)
    requires rest != []
    ensures a + [sep] + b + [sep] + c + [sep] + Join(rest, sep) == Join([a, b, c] + rest, sep)
  {
    JoinCons(c, rest, sep);
    assert [b, c] + rest == [b] + ([c] + rest);
    JoinCons(b, [c] + rest, sep);
    assert [a, b, c] + rest == [a] + ([b, c] + rest);
    JoinCons(a, [b, c] + rest, sep);
  }

  /** The parts of `a + b + c` can be sliced back out. */
  lemma SliceConcat(a: string, b: string, c: string)
    ensures (a + b + c)[..|a|] == a
    ensures (a + b + c)[|a|..|a| + |b|] == b
    ensures (a + b + c)[|a| + |b|..] == c
  {
  }

  /** The index of the first `c` in `s`. */
  function IndexOf(s: string, c: char): (i: nat)
    requires c in s
    ensures i < |s| && s[i] == c && c !in s[..i]
  {
    if s[0] == c then 0
    else
      assert c in s[1..];
      var i := 1 + IndexOf(s[1..], c);
      assert s[..i] == [s[0]] + s[1..][..i - 1];
      i
  }

  /** The first `c` in `a + [c] + b` is the one after `a`, when `a` holds none. */
  lemma {:induction false} IndexOfAfter(a: string, c: char, b: string)
    requires c !in a
    ensures IndexOf(a + [c] + b, c) == |a|
    decreases |a|
  {
    var s := a + [c] + b;
    if a != [] {
      assert s[0] == a[0];
      assert s[1..] == a[1..] + [c] + b;
      IndexOfAfter(a[1..], c, b);
    }
  }

  /** `s.split(sep)`: the pieces between the separators, always at least one. */
  function Split(s: string, sep: char): (r: seq<string>)
    ensures r != []
    decreases |s|
  {
    if sep !in s then [s]
    else
      var i := IndexOf(s, sep);
      [s[..i]] + Split(s[i + 1..], sep)
  }

  /** Splitting a join gives back the pieces, as long as none contains the separator. */
  lemma {:induction false} SplitJoin(lines: seq<string>, sep: char)
    requires lines != []
    requires forall k :: 0 <= k < |lines| ==> sep !in lines[k]
    ensures Split(Join(lines, sep), sep) == lines
    decreases |lines|
  {
    if |lines| > 1 {
      var head, rest := lines[0], Join(lines[1..], sep);
      var s := head + [sep] + rest;
      IndexOfAfter(head, sep, rest);
      assert s[|head| + 1..] == rest;
      SplitJoin(lines[1..], sep);
    }
  }

  // ---------------------------------------------------------------------------
  // Decimal rendering of an int inside an f-string

  function DigitChar(d: nat): (c: char)
    requires d < 10
    ensures IsDigit(c)
  {
    ('0' as int + d) as char
  }

  /** `str(n)` for a natural number: at least one digit, no sign. */
  function NatToString(n: nat): (r: string)
    ensures r != [] && AllDigits(r)
    decreases n
  {
    if n < 10 then [DigitChar(n)] else NatToString(n / 10) + [DigitChar(n % 10)]
  }

  /** The value of a string of decimal digits: the inverse of `NatToString`. */
  function ParseNat(s: string): nat
    requires AllDigits(s)
    decreases |s|
  {
    if s == [] then 0
    else 10 * ParseNat(s[..|s| - 1]) + (s[|s| - 1] as int - '0' as int)
  }

  lemma {:induction false} ParseNatToString(n: nat)
    ensures ParseNat(NatToString(n)) == n
    decreases n
  {
    var s := NatToString(n);
    if n >= 10 {
      assert s[..|s| - 1] == NatToString(n / 10);
      ParseNatToString(n / 10);
    }
  }

  /** `str(i)` for any int: a minus sign when negative, then the digits. */
  function IntToString(i: int): (r: string)
    ensures r != []
    ensures r[0] == '-' <==> i < 0
  {
    if i < 0 then "-" + NatToString(-i) else NatToString(i)
  }

  /** The value of an optionally signed decimal string. */
  function ParseInt(s: string): int
    requires s != [] && (if s[0] == '-' then AllDigits(s[1..]) else AllDigits(s))
  {
    if s[0] == '-' then -(ParseNat(s[1..]) as int) else ParseNat(s)
  }

  /** The rendering of an int can be read back: distinct ints render differently. */
  lemma ParseIntToString(i: int)
    ensures var s := IntToString(i);
            (if s[0] == '-' then AllDigits(s[1..]) else AllDigits(s)) && ParseInt(s) == i
  {
    var s := IntToString(i);
    if i < 0 {
      assert s[1..] == NatToString(-i);
      ParseNatToString(-i);
    } else {
      ParseNatToString(i);
    }
  }
}
