/** The JavaScript string built-ins the forms and the export rely on:
    `\s` / `trim()` whitespace, `length` in UTF-16 code units, `split`, and the
    e-mail pattern `/\S+@\S+\.\S+/.test`. */
module JsStrings {

  /** The characters JavaScript's `\s` and `String.prototype.trim` treat as
      white space (WhiteSpace and LineTerminator of ECMAScript). */
  predicate IsWhitespace(c: char)
  {
    var n := c as int;
    n == 0x09 || n == 0x0A || n == 0x0B || n == 0x0C || n == 0x0D || n == 0x20
    || n == 0xA0 || n == 0x1680 || (0x2000 <= n <= 0x200A) || n == 0x2028
    || n == 0x2029 || n == 0x202F || n == 0x205F || n == 0x3000 || n == 0xFEFF
  }

  /** Every character of `s` is white space (the empty string included). */
  predicate IsBlank(s: string)
  {
    forall k :: 0 <= k < |s| ==> IsWhitespace(s[k])
  }

  /** `s[i..j]` holds no white space. */
  predicate NoWhitespace(s: string, i: int, j: int)
  {
    0 <= i <= j <= |s| && forall k :: i <= k < j ==> !IsWhitespace(s[k])
  }

  // ---------------------------------------------------------------- trim

  /** The first position from `i` on that does not hold white space. */
  function FirstNonSpace(s: string, i: nat): (n: nat)
    requires i <= |s|
    ensures i <= n <= |s|
    ensures forall k :: i <= k < n ==> IsWhitespace(s[k])
    ensures n == |s| || !IsWhitespace(s[n])
    decreases |s| - i
  {
    if i == |s| || !IsWhitespace(s[i]) then i else FirstNonSpace(s, i + 1)
  }

  /** `s` with its leading white space removed. */
  function TrimStart(s: string): (r: string)
    ensures |r| <= |s| && r == s[|s| - |r|..]
    ensures IsBlank(s[..|s| - |r|])
    ensures r == [] || !IsWhitespace(r[0])
  {
    s[FirstNonSpace(s, 0)..]
  }

  /** The end of `s[..j]` once the white space before `j` is dropped. */
  function EndOfText(s: string, j: nat): (n: nat)
    requires j <= |s|
    ensures n <= j
    ensures forall k :: n <= k < j ==> IsWhitespace(s[k])
    ensures n == 0 || !IsWhitespace(s[n - 1])
  {
    if j == 0 || !IsWhitespace(s[j - 1]) then j else EndOfText(s, j - 1)
  }

  /** `s` with its trailing white space removed. */
  function TrimEnd(s: string): (r: string)
    ensures |r| <= |s| && r == s[..|r|]
    ensures IsBlank(s[|r|..])
    ensures r == [] || !IsWhitespace(r[|r| - 1])
  {
    s[..EndOfText(s, |s|)]
  }

  /** `String.prototype.trim`. */
  function Trim(s: string): string
  {
    TrimEnd(TrimStart(s))
  }

  /** Text that does not start with white space is its own `trimStart`. */
  lemma TrimStartUnchanged(s: string)
    requires s == [] || !IsWhitespace(s[0])
    ensures TrimStart(s) == s
  {
    assert FirstNonSpace(s, 0) == 0;
    assert s[0..] == s;
  }

  /** Text that neither starts nor ends with white space is its own trim. */
  lemma TrimUnchanged(s: string)
    requires s == [] || (!IsWhitespace(s[0]) && !IsWhitespace(s[|s| - 1]))
    ensures Trim(s) == s
  {
    TrimStartUnchanged(s);
    TrimEndUnchanged(s);
  }

  /** Text that does not end with white space is its own `trimEnd`. */
  lemma TrimEndUnchanged(s: string)
    requires s == [] || !IsWhitespace(s[|s| - 1])
    ensures TrimEnd(s) == s
  {
    assert EndOfText(s, |s|) == |s|;
    assert s[..|s|] == s;
  }

  /** `!s.trim()` holds exactly for the blank strings. */
  lemma TrimEmptyIffBlank(s: string)
    ensures Trim(s) == "" <==> IsBlank(s)
  {
    var t := TrimStart(s);
    if Trim(s) == "" {
      assert IsBlank(t) by { assert t[0..] == t; }
      assert t == [];
      assert s[..|s|] == s;
    }
  }

  // ------------------------------------------------------------ length

  /** `s.length` in JavaScript: UTF-16 code units, so a character outside the
      Basic Multilingual Plane counts twice. */
  function Utf16Length(s: string): (n: nat)
    ensures |s| <= n <= 2 * |s|
    ensures (forall k :: 0 <= k < |s| ==> s[k] as int <= 0xFFFF) ==> n == |s|
  {
    if s == [] then 0
    else (if s[0] as int > 0xFFFF then 2 else 1) + Utf16Length(s[1..])
  }

  // ---------------------------------------------------- split and join

  /** Number of occurrences of `d` in `s`. */
  function Count(s: string, d: char): nat
  {
    if s == [] then 0 else (if s[0] == d then 1 else 0) + Count(s[1..], d)
  }

  lemma {:induction false} CountAppend(a: string, b: string, d: char)
    ensures Count(a + b, d) == Count(a, d) + Count(b, d)
  {
    if a != [] {
      assert (a + b)[0] == a[0] && (a + b)[1..] == a[1..] + b;
      CountAppend(a[1..], b, d);
    } else {
      assert a + b == b;
    }
  }

  lemma {:induction false} CountAbsent(s: string, d: char)
    requires d !in s
    ensures Count(s, d) == 0
  {
    if s != [] {
      CountAbsent(s[1..], d);
    }
  }

  /** `s.split(d)` for a one-character separator: the pieces between the
      separators, one more piece than there are separators. */
  function Split(s: string, d: char): (r: seq<string>)
    ensures |r| == Count(s, d) + 1
    ensures forall k :: 0 <= k < |r| ==> d !in r[k]
  {
    if s == [] then [""]
    else
      var t := Split(s[1..], d);
      if s[0] == d then [""] + t
      else [[s[0]] + t[0]] + t[1..]
  }

  /** `parts.join(d)`. */
  function Join(parts: seq<string>, d: char): string
  {
    if |parts| == 0 then ""
    else if |parts| == 1 then parts[0]
    else parts[0] + [d] + Join(parts[1..], d)
  }

  /** Joining the pieces of a split gives the string back. */
  lemma {:induction false} JoinSplit(s: string, d: char)
    ensures Join(Split(s, d), d) == s
  {
    if s != [] {
      var t := Split(s[1..], d);
      JoinSplit(s[1..], d);
      if s[0] == d {
        assert Split(s, d) == [""] + t;
        assert ([""] + t)[1..] == t;
      } else {
        var r := Split(s, d);
        assert r == [[s[0]] + t[0]] + t[1..];
        if |t| == 1 {
          assert Join(t, d) == t[0];
        } else {
          assert r[1..] == t[1..];
          assert Join(t, d) == t[0] + [d] + Join(t[1..], d);
        }
      }
    }
  }

  lemma {:induction false} SplitFree(x: string, d: char)
    requires d !in x
    ensures Split(x, d) == [x]
  {
    if x != [] {
      SplitFree(x[1..], d);
      assert [x[0]] + x[1..] == x;
    }
  }

  lemma {:induction false} SplitCons(x: string, y: string, d: char)
    requires d !in x
    ensures Split(x + [d] + y, d) == [x] + Split(y, d)
  {
    if x == [] {
      assert x + [d] + y == [d] + y;
      assert ([d] + y)[1..] == y;
    } else {
      var s := x + [d] + y;
      assert s[1..] == x[1..] + [d] + y;
      SplitCons(x[1..], y, d);
      assert [x[0]] + x[1..] == x;
    }
  }

  /** Splitting a join gives the parts back, provided no part holds the
      separator: the round trip a delimited text format depends on. */
  lemma {:induction false} SplitJoin(parts: seq<string>, d: char)
    requires |parts| >= 1
    requires forall k :: 0 <= k < |parts| ==> d !in parts[k]
    ensures Split(Join(parts, d), d) == parts
  {
    if |parts| == 1 {
      SplitFree(parts[0], d);
    } else {
      SplitJoin(parts[1..], d);
      SplitCons(parts[0], Join(parts[1..], d), d);
      assert [parts[0]] + parts[1..] == parts;
    }
  }

  // ------------------------------------------------- e-mail pattern

  /** `s[i..e]` is a match of `\S+@\S+\.\S+` with the '@' at `a` and the
      '.' at `dot`: three non-empty runs of non-white-space characters. */
  ghost predicate EmailMatchAt(s: string, i: int, a: int, dot: int, e: int)
  {
    0 <= i < a && a + 1 < dot && dot + 1 < e <= |s|
    && s[a] == '@' && s[dot] == '.'
    && NoWhitespace(s, i, a) && NoWhitespace(s, a + 1, dot) && NoWhitespace(s, dot + 1, e)
  }

  /** The regular expression `\S+@\S+\.\S+` matches somewhere in `s`
      (`RegExp.prototype.test` is unanchored). */
  ghost predicate EmailPatternMatches(s: string)
  {
    exists i, a, dot, e :: EmailMatchAt(s, i, a, dot, e)
  }

  /** From `s[d]` on, a run of non-white-space reaches a '.' that is
      followed by a non-white-space character. */
  function DotRun(s: string, d: nat): bool
    decreases |s| - d
  {
    if d >= |s| || IsWhitespace(s[d]) then false
    else if s[d] == '.' && d + 1 < |s| && !IsWhitespace(s[d + 1]) then true
    else DotRun(s, d + 1)
  }

  /** `s[a]` is an '@' that can start the '@' of a match. */
  function AtCandidate(s: string, a: nat): bool
  {
    a < |s| && s[a] == '@' && a > 0 && !IsWhitespace(s[a - 1])
    && a + 1 < |s| && !IsWhitespace(s[a + 1]) && DotRun(s, a + 2)
  }

  /** Some position from `from` on is an '@' candidate. */
  function AtFrom(s: string, from: nat): bool
    decreases |s| - from
  {
    if from >= |s| then false else AtCandidate(s, from) || AtFrom(s, from + 1)
  }

  /** The executable test `/\S+@\S+\.\S+/.test(s)`. */
  function TestEmail(s: string): bool
  {
    AtFrom(s, 0)
  }

  lemma {:induction false} DotRunWitness(s: string, d: nat)
    requires DotRun(s, d)
    ensures exists q :: d <= q && q + 1 < |s| && s[q] == '.' && !IsWhitespace(s[q + 1])
                        && NoWhitespace(s, d, q)
    decreases |s| - d
  {
    if s[d] == '.' && d + 1 < |s| && !IsWhitespace(s[d + 1]) {
      assert NoWhitespace(s, d, d);
    } else {
      DotRunWitness(s, d + 1);
      var q :| d + 1 <= q && q + 1 < |s| && s[q] == '.' && !IsWhitespace(s[q + 1])
               && NoWhitespace(s, d + 1, q);
      assert NoWhitespace(s, d, q);
    }
  }

  lemma {:induction false} DotRunFromWitness(s: string, d: nat, q: nat)
    requires d <= q && q + 1 < |s| && s[q] == '.' && !IsWhitespace(s[q + 1])
    requires NoWhitespace(s, d, q)
    ensures DotRun(s, d)
    decreases q - d
  {
    if d < q {
      DotRunFromWitness(s, d + 1, q);
    }
  }

  lemma {:induction false} AtFromWitness(s: string, from: nat)
    requires AtFrom(s, from)
    ensures exists a: nat :: from <= a && AtCandidate(s, a)
    decreases |s| - from
  {
    if !AtCandidate(s, from) {
      AtFromWitness(s, from + 1);
    }
  }

  lemma {:induction false} AtFromCandidate(s: string, from: nat, a: nat)
    requires from <= a && AtCandidate(s, a)
    ensures AtFrom(s, from)
    decreases a - from
  {
    if from < a {
      AtFromCandidate(s, from + 1, a);
    }
  }

  /** The scanner decides exactly the regular expression. */
  lemma TestEmailCorrect(s: string)
    ensures TestEmail(s) <==> EmailPatternMatches(s)
  {
    if TestEmail(s) {
      TestEmailSound(s);
    }
    if EmailPatternMatches(s) {
      TestEmailComplete(s);
    }
  }

  /** What the scanner accepts, the regular expression matches. */
  lemma TestEmailSound(s: string)
    requires TestEmail(s)
    ensures EmailPatternMatches(s)
  {
    AtFromWitness(s, 0);
    var a: nat :| AtCandidate(s, a);
    DotRunWitness(s, a + 2);
    var q :| a + 2 <= q && q + 1 < |s| && s[q] == '.' && !IsWhitespace(s[q + 1])
             && NoWhitespace(s, a + 2, q);
    assert EmailMatchAt(s, a - 1, a, q, q + 2);
  }

  /** What the regular expression matches, the scanner accepts. */
  lemma TestEmailComplete(s: string)
    requires EmailPatternMatches(s)
    ensures TestEmail(s)
  {
    var i, a, dot, e :| EmailMatchAt(s, i, a, dot, e);
    assert !IsWhitespace(s[a - 1]);
    DotRunFromWitness(s, a + 2, dot);
    assert AtCandidate(s, a);
    AtFromCandidate(s, 0, a);
  }
}
