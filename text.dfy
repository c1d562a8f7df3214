/** String primitives shared by the Rust and TypeScript halves of the tool.
    Only ASCII text is modelled: `char` stands for one byte of the source's
    UTF-8 strings (Rust) or one UTF-16 unit (JavaScript). */
module Text {

  /** Rust's `char::is_whitespace` and JavaScript's `trim` restricted to ASCII. */
  predicate IsWhitespace(c: char) {
    c == ' ' || c == '\t' || c == '\n' || c == '\U{000B}' || c == '\U{000C}' || c == '\r'
  }

  predicate IsDigit(c: char) {
    '0' <= c <= '9'
  }

  /** `s` without its leading whitespace. */
  function TrimStart(s: string): (r: string)
    ensures |r| <= |s|
    ensures r == [] || !IsWhitespace(r[0])
  {
    if s != [] && IsWhitespace(s[0]) then TrimStart(s[1..]) else s
  }

  /** What `TrimStart` drops is whitespace. */
  lemma {:induction false} TrimStartDrops(s: string)
    ensures forall i :: 0 <= i < |s| - |TrimStart(s)| ==> IsWhitespace(s[i])
  {
    if s != [] && IsWhitespace(s[0]) {
      TrimStartDrops(s[1..]);
      assert forall i :: 1 <= i < |s| ==> s[i] == s[1..][i - 1];
    }
  }

  /** `s` without its trailing whitespace. */
  function TrimEnd(s: string): (r: string)
    ensures r <= s
    ensures r == [] || !IsWhitespace(r[|r| - 1])
  {
    if s != [] && IsWhitespace(s[|s| - 1]) then TrimEnd(s[..|s| - 1]) else s
  }

  /** What `TrimEnd` drops is whitespace. */
  lemma {:induction false} TrimEndDrops(s: string)
    ensures forall i :: |TrimEnd(s)| <= i < |s| ==> IsWhitespace(s[i])
  {
    if s != [] && IsWhitespace(s[|s| - 1]) {
      TrimEndDrops(s[..|s| - 1]);
    }
  }

  /** Rust `str::trim` / JavaScript `String.prototype.trim`. */
  function Trim(s: string): (r: string)
    ensures |r| <= |s|
    ensures r == [] || (!IsWhitespace(r[0]) && !IsWhitespace(r[|r| - 1]))
  {
    var t := TrimStart(s);
    var r := TrimEnd(t);
    assert r <= t;
    assert r != [] ==> r[0] == t[0];
    r
  }

  /** Text trims to nothing exactly when it is all whitespace. */
  lemma TrimEmpty(s: string)
    ensures (forall i :: 0 <= i < |s| ==> IsWhitespace(s[i])) <==> Trim(s) == []
  {
    var t := TrimStart(s);
    TrimStartDrops(s);
    TrimEndDrops(t);
    if Trim(s) == [] {
      assert t == [];
    }
    if forall i :: 0 <= i < |s| ==> IsWhitespace(s[i]) {
      WhiteTrimStart(s);
    }
  }

  /** Whitespace alone trims to nothing from the start. */
  lemma {:induction false} WhiteTrimStart(s: string)
    requires forall i :: 0 <= i < |s| ==> IsWhitespace(s[i])
    ensures TrimStart(s) == []
  {
    if s != [] {
      assert forall i :: 0 <= i < |s[1..]| ==> s[1..][i] == s[i + 1];
      WhiteTrimStart(s[1..]);
    }
  }

  /** Text that neither starts nor ends with whitespace trims to itself,
      also with a final newline. */
  lemma TrimClean(s: string)
    requires s != [] && !IsWhitespace(s[0]) && !IsWhitespace(s[|s| - 1])
    ensures Trim(s) == s
    ensures Trim(s + "\n") == s
  {
    var t := s + "\n";
    assert t[..|t| - 1] == s;
    assert TrimEnd(t) == TrimEnd(s);
  }

  /** Index of the first `c` in `s`, or -1 (Rust `find`, JavaScript `indexOf`). */
  function IndexOf(s: string, c: char): (r: int)
    ensures -1 <= r < |s|
    ensures r >= 0 ==> s[r] == c && c !in s[..r]
    ensures r == -1 <==> c !in s
  {
    if s == [] then -1
    else if s[0] == c then 0
    else
      var k := IndexOf(s[1..], c);
      if k == -1 then -1 else k + 1
  }

  /** `s` split at every `d` (Rust `split(d)`, JavaScript `split(d)`):
      one piece more than there are separators. */
  function Split(s: string, d: char): (r: seq<string>)
    ensures |r| >= 1 && |r| - 1 <= |s|
    decreases |s|
  {
    var i := IndexOf(s, d);
    if i == -1 then [s] else [s[..i]] + Split(s[i + 1..], d)
  }

  /** No piece of `p` contains `d`. */
  predicate Separated(p: seq<string>, d: char) {
    forall k :: 0 <= k < |p| ==> d !in p[k]
  }

  /** The pieces of a split hold no separator. */
  lemma {:induction false} SplitSeparated(s: string, d: char)
    ensures Separated(Split(s, d), d)
    decreases |s|
  {
    var i := IndexOf(s, d);
    if i != -1 {
      SplitSeparated(s[i + 1..], d);
      var rest := Split(s[i + 1..], d);
      assert forall k :: 1 <= k <= |rest| ==> ([s[..i]] + rest)[k] == rest[k - 1];
    }
  }

  /** The pieces joined with `sep` between neighbours (`join`, `collect`). */
  function Join(parts: seq<string>, sep: string): (r: string)
    ensures |parts| == 1 ==> r == parts[0]
  {
    if |parts| == 0 then []
    else if |parts| == 1 then parts[0]
    else parts[0] + sep + Join(parts[1..], sep)
  }

  /** A character in neither the pieces nor the separator is not in their join. */
  lemma {:induction false} JoinAvoids(parts: seq<string>, sep: string, c: char)
    requires Separated(parts, c) && c !in sep
    ensures c !in Join(parts, sep)
  {
    if |parts| > 1 {
      var rest := parts[1..];
      assert Separated(rest, c) by {
        assert forall k :: 0 <= k < |rest| ==> rest[k] == parts[k + 1];
      }
      JoinAvoids(rest, sep, c);
      assert c !in parts[0];
    }
  }

  lemma {:induction false} SplitJoin(s: string, d: char)
    ensures Join(Split(s, d), [d]) == s
    decreases |s|
  {
    var i := IndexOf(s, d);
    if i != -1 {
      var rest := Split(s[i + 1..], d);
      SplitAt(s, d, i);
      JoinCons(s[..i], rest, [d]);
      SplitJoin(s[i + 1..], d);
      Around(s, i);
    }
  }

  lemma SplitAt(s: string, d: char, i: nat)
    requires IndexOf(s, d) == i
    ensures Split(s, d) == [s[..i]] + Split(s[i + 1..], d)
  {
  }

  lemma JoinCons(p: string, rest: seq<string>, sep: string)
    requires rest != []
    ensures Join([p] + rest, sep) == p + sep + Join(rest, sep)
  {
    assert ([p] + rest)[1..] == rest;
  }

  /** A string is its part before `i`, its `i`-th character and the rest. */
  lemma Around(s: string, i: nat)
    requires i < |s|
    ensures s[..i] + [s[i]] + s[i + 1..] == s
  {
  }

  /** A string without separators splits into itself alone. */
  lemma SplitWithout(s: string, d: char)
    requires d !in s
    ensures Split(s, d) == [s]
  {
  }

  /** Joining pieces that contain no `d` and splitting again gives the pieces back. */
  lemma {:induction false} JoinSplit(parts: seq<string>, d: char)
    requires |parts| >= 1 && Separated(parts, d)
    ensures Split(Join(parts, [d]), d) == parts
  {
    if |parts| > 1 {
      var rest := parts[1..];
      assert Separated(rest, d) by {
        assert forall k :: 0 <= k < |rest| ==> rest[k] == parts[k + 1];
      }
      JoinSplit(rest, d);
      assert Join(parts, [d]) == parts[0] + [d] + Join(rest, [d]);
      assert d !in parts[0];
      SplitCons(parts[0], d, Join(rest, [d]));
      assert parts == [parts[0]] + rest;
    }
  }

  /** A first piece without `d`, then `d`: the piece comes off the split. */
  lemma SplitCons(a: string, d: char, rest: string)
    requires d !in a
    ensures Split(a + [d] + rest, d) == [a] + Split(rest, d)
  {
    var s := a + [d] + rest;
    IndexOfAfter(a, d, rest);
    assert s[..|a|] == a && s[|a| + 1..] == rest;
    SplitAt(s, d, |a|);
  }

  lemma SplitTwo(b: string, c: string, d: char)
    requires d !in b && d !in c
    ensures Split(b + [d] + c, d) == [b, c]
  {
    SplitCons(b, d, c);
    SplitWithout(c, d);
  }

  /** Three pieces without `d`, joined by `d`, split back into the three. */
  lemma SplitThree(a: string, b: string, c: string, d: char)
    requires d !in a && d !in b && d !in c
    ensures Split(a + [d] + (b + [d] + c), d) == [a, b, c]
  {
    SplitTwo(b, c, d);
    SplitCons(a, d, b + [d] + c);
    Three(a, b, c);
  }

  /** The last piece of a split is what follows the last separator. */
  lemma {:induction false} SplitLast(p: string, d: char, w: string)
    requires d !in w
    ensures Last(Split(p + [d] + w, d)) == w
    decreases |p|
  {
    if d !in p {
      SplitCons(p, d, w);
      SplitWithout(w, d);
    } else {
      var i := IndexOf(p, d);
      var q := p[i + 1..];
      Around(p, i);
      Regroup(p[..i], d, q, w);
      SplitCons(p[..i], d, q + [d] + w);
      SplitLast(q, d, w);
      LastCons(p[..i], Split(q + [d] + w, d));
    }
  }

  lemma Regroup(x: string, d: char, q: string, w: string)
    ensures x + [d] + q + [d] + w == x + [d] + (q + [d] + w)
  {
  }

  lemma LastCons<T>(a: T, r: seq<T>)
    requires r != []
    ensures Last([a] + r) == Last(r)
  {
  }

  lemma Assoc<T>(a: seq<T>, b: seq<T>, c: seq<T>)
    ensures a + b + c == a + (b + c)
  {
  }

  /** Putting back the head of a sequence that got a last element. */
  lemma ConsSnoc<T>(s: seq<T>, x: T)
    requires s != []
    ensures [s[0]] + (s[1..] + [x]) == s + [x]
  {
    assert [s[0]] + s[1..] == s;
  }

  lemma Three<T>(a: T, b: T, c: T)
    ensures [a] + ([b] + [c]) == [a, b, c]
  {
  }

  lemma ConsThree<T>(a: T, b: T, c: T, d: T)
    ensures [a] + [b, c, d] == [a, b, c, d]
  {
  }

  lemma ConsFour<T>(a: T, b: T, c: T, d: T, e: T)
    ensures [a] + [b, c, d, e] == [a, b, c, d, e]
  {
  }

  /** The first `d` is at `j` when `s[j]` is one and none comes before. */
  lemma {:induction false} IndexOfAt(s: string, d: char, j: nat)
    requires j < |s| && s[j] == d && forall m :: 0 <= m < j ==> s[m] != d
    ensures IndexOf(s, d) == j
    decreases j
  {
    if j > 0 {
      IndexOfAt(s[1..], d, j - 1);
    }
  }

  lemma IndexOfAfter(a: string, d: char, b: string)
    requires d !in a
    ensures IndexOf(a + [d] + b, d) == |a|
  {
    var s := a + [d] + b;
    assert s[|a|] == d;
    assert s[..|a|] == a;
  }

  /** The non-empty pieces, in order (`filter(|s| !s.is_empty())`). */
  function NonEmpty(parts: seq<string>): (r: seq<string>)
    ensures |r| <= |parts|
    ensures forall k :: 0 <= k < |r| ==> r[k] != [] && r[k] in parts
    ensures forall k :: 0 <= k < |parts| && parts[k] != [] ==> parts[k] in r
  {
    if parts == [] then []
    else if parts[0] == [] then NonEmpty(parts[1..])
    else [parts[0]] + NonEmpty(parts[1..])
  }

  /** One trailing carriage return removed. */
  function StripCR(s: string): (r: string)
    ensures r <= s && |s| - |r| <= 1
    ensures |r| < |s| <==> (s != [] && s[|s| - 1] == '\r')
  {
    if s != [] && s[|s| - 1] == '\r' then s[..|s| - 1] else s
  }

  /** Rust `str::lines`: split at "\n", drop a "\r" that precedes a "\n",
      and no empty last line after a final newline. */
  function Lines(s: string): (r: seq<string>)
    ensures forall k :: 0 <= k < |r| ==> '\n' !in r[k]
    ensures s == [] <==> r == []
    decreases |s|
  {
    if s == [] then []
    else
      var i := IndexOf(s, '\n');
      if i == -1 then [s] else [StripCR(s[..i])] + Lines(s[i + 1..])
  }

  /** A first line ending in "\n" comes off the lines. */
  lemma LinesCons(line: string, rest: string)
    requires '\n' !in line
    ensures Lines(line + "\n" + rest) == [StripCR(line)] + Lines(rest)
  {
    var s := line + "\n" + rest;
    IndexOfAfter(line, '\n', rest);
    assert s[..|line|] == line && s[|line| + 1..] == rest;
  }

  /** Text without "\n" is one line, kept whole. */
  lemma LinesSingle(line: string)
    requires line != [] && '\n' !in line
    ensures Lines(line) == [line]
  {
  }

  /** The lines of text that has neither "\r" nor a final newline are its "\n"-pieces. */
  lemma {:induction false} LinesAreSplit(s: string)
    requires s != [] && s[|s| - 1] != '\n' && '\r' !in s
    ensures Lines(s) == Split(s, '\n')
    decreases |s|
  {
    var i := IndexOf(s, '\n');
    if i != -1 {
      var head, tail := s[..i], s[i + 1..];
      Around(s, i);
      assert s == head + "\n" + tail;
      assert '\r' !in head && '\r' !in tail;
      assert tail != [] && tail[|tail| - 1] == s[|s| - 1];
      LinesCons(head, tail);
      SplitCons(head, '\n', tail);
      LinesAreSplit(tail);
    }
  }

  /** Every `c` removed (Rust `replace(c, "")`, JavaScript `replace(/c/g, "")`). */
  function RemoveChar(s: string, c: char): (r: string)
    ensures |r| <= |s|
    ensures c !in s ==> r == s
  {
    if s == [] then []
    else if s[0] == c then RemoveChar(s[1..], c)
    else [s[0]] + RemoveChar(s[1..], c)
  }

  /** Only `c` goes: every other character stays, and `c` is gone. */
  lemma {:induction false} RemoveCharKeeps(s: string, c: char)
    ensures c !in RemoveChar(s, c)
    ensures forall x :: x != c ==> (x in RemoveChar(s, c) <==> x in s)
  {
    if s != [] {
      RemoveCharKeeps(s[1..], c);
      assert s == [s[0]] + s[1..];
    }
  }

  /** Every `c` replaced with `rep` (`replace(/ /g, "-")`). */
  function ReplaceChar(s: string, c: char, rep: char): (r: string)
    ensures |r| == |s|
    ensures forall i :: 0 <= i < |s| ==> r[i] == if s[i] == c then rep else s[i]
  {
    if s == [] then [] else [if s[0] == c then rep else s[0]] + ReplaceChar(s[1..], c, rep)
  }

  /** `pat` occurs in `s` starting at `i`. */
  predicate At(s: string, i: nat, pat: string) {
    i + |pat| <= |s| && s[i..i + |pat|] == pat
  }

  /** JavaScript `includes` / Rust `contains` for a substring. */
  predicate Contains(s: string, pat: string) {
    exists i: nat | i <= |s| :: At(s, i, pat)
  }

  /** Rust `str::replace(pat, rep)` for a non-empty pattern: left to right,
      matches do not overlap. */
  function ReplaceAll(s: string, pat: string, rep: string): (r: string)
    requires pat != []
    ensures pat[0] !in s ==> r == s
    decreases |s|
  {
    if |s| < |pat| then s
    else if s[..|pat|] == pat then rep + ReplaceAll(s[|pat|..], pat, rep)
    else [s[0]] + ReplaceAll(s[1..], pat, rep)
  }

  /** ASCII `toLowerCase`. */
  function ToLower(s: string): (r: string)
    ensures |r| == |s|
    ensures forall i :: 0 <= i < |s| ==> r[i] == if 'A' <= s[i] <= 'Z' then (s[i] as int + 32) as char else s[i]
    ensures forall i :: 0 <= i < |s| ==> !('A' <= r[i] <= 'Z')
  {
    if s == [] then []
    else [if 'A' <= s[0] <= 'Z' then (s[0] as int + 32) as char else s[0]] + ToLower(s[1..])
  }

  function DigitChar(d: nat): (c: char)
    requires d < 10
    ensures IsDigit(c) && c as int - '0' as int == d
  {
    ('0' as int + d) as char
  }

  /** Decimal rendering (`to_string`, template-string interpolation). */
  function NatToString(n: nat): (r: string)
    ensures r != []
    ensures forall i :: 0 <= i < |r| ==> IsDigit(r[i])
    ensures |r| > 1 ==> r[0] != '0'
  {
    if n < 10 then [DigitChar(n)] else NatToString(n / 10) + [DigitChar(n % 10)]
  }

  /** The value of a string of decimal digits. */
  function DigitsValue(s: string): (v: nat)
    requires forall i :: 0 <= i < |s| ==> IsDigit(s[i])
  {
    if s == [] then 0
    else
      assert IsDigit(s[|s| - 1]);
      DigitsValue(s[..|s| - 1]) * 10 + (s[|s| - 1] as int - '0' as int)
  }

  lemma {:induction false} NatToStringValue(n: nat)
    ensures DigitsValue(NatToString(n)) == n
  {
    if n >= 10 {
      NatToStringValue(n / 10);
      var s := NatToString(n);
      assert s[..|s| - 1] == NatToString(n / 10);
    }
  }

  /** Rust `str::parse::<uN>()` where `bound` is 2^N: an optional "+",
      then at least one digit, and a value below the bound. */
  function ParseUnsigned(s: string, bound: nat): (r: Option<nat>)
    ensures r.Some? ==> r.value < bound
    ensures r.Some? ==> s != [] && (s[0] == '+' || IsDigit(s[0]))
  {
    var digits := if s != [] && s[0] == '+' then s[1..] else s;
    if digits != [] && (forall i :: 0 <= i < |digits| ==> IsDigit(digits[i]))
       && DigitsValue(digits) < bound
    then Some(DigitsValue(digits))
    else None
  }

  /** Rendering a number and parsing it back gives the number. */
  lemma ParseRendered(n: nat, bound: nat)
    requires n < bound
    ensures ParseUnsigned(NatToString(n), bound) == Some(n)
  {
    NatToStringValue(n);
  }

  datatype Option<+T> = None | Some(value: T)

  /** The result of a call that may panic (an `unwrap` on nothing, an index
      past the end): its value, or the panic. */
  datatype Checked<+T> = Returns(value: T) | Panics

  /** Rust `last()` of a split, which is never empty. */
  function Last<T>(s: seq<T>): T
    requires s != []
  {
    s[|s| - 1]
  }

  /** `n` spaces: the indentation inside the source's raw string literals. */
  function Spaces(n: nat): (r: string)
    ensures |r| == n && forall i :: 0 <= i < n ==> r[i] == ' '
  {
    if n == 0 then [] else Spaces(n - 1) + " "
  }

  /** Rust `starts_with` / JavaScript `startsWith`. */
  predicate StartsWith(s: string, prefix: string) {
    |prefix| <= |s| && s[..|prefix|] == prefix
  }

  /** The middle of `front + mid + back` reads back by position. */
  lemma Between<T>(front: seq<T>, mid: seq<T>, back: seq<T>)
    ensures var c := front + mid + back;
            c[..|front|] == front && c[|front|..|c| - |back|] == mid && c[|c| - |back|..] == back
  {
  }
}
