/**
 * The ECMAScript string operations the client relies on: `trim`, `startsWith`,
 * `indexOf` of a two-character pattern, `split` on one character, the global
 * replacement of CRLF by LF, and decimal formatting of integers.
 */
module Text {
  import opened Wrappers

  /** The characters matched by `\s` and removed by `String.prototype.trim`:
      ECMAScript WhiteSpace and LineTerminator. */
  predicate IsWhitespace(c: char) {
    var n := c as int;
    n == 0x09 || n == 0x0A || n == 0x0B || n == 0x0C || n == 0x0D || n == 0x20 ||
    n == 0xA0 || n == 0x1680 || (0x2000 <= n <= 0x200A) || n == 0x2028 ||
    n == 0x2029 || n == 0x202F || n == 0x205F || n == 0x3000 || n == 0xFEFF
  }

  /** Removes leading whitespace. */
  function TrimStart(s: string): string
    decreases |s|
  {
    if s != [] && IsWhitespace(s[0]) then TrimStart(s[1..]) else s
  }

  /** Removes trailing whitespace. */
  function TrimEnd(s: string): string
    decreases |s|
  {
    if s != [] && IsWhitespace(s[|s| - 1]) then TrimEnd(s[..|s| - 1]) else s
  }

  /** `String.prototype.trim`. */
  function Trim(s: string): string
  {
    TrimEnd(TrimStart(s))
  }

  /** `TrimStart` keeps a suffix that does not start with whitespace, and
      everything it removes is whitespace. */
  lemma {:induction false} TrimStartSpec(s: string)
    ensures |TrimStart(s)| <= |s| && TrimStart(s) == s[|s| - |TrimStart(s)|..]
    ensures TrimStart(s) == [] || !IsWhitespace(TrimStart(s)[0])
    ensures forall i :: 0 <= i < |s| - |TrimStart(s)| ==> IsWhitespace(s[i])
    decreases |s|
  {
    if s != [] && IsWhitespace(s[0]) {
      TrimStartSpec(s[1..]);
      var r := TrimStart(s[1..]);
      assert s[1..][|s| - 1 - |r|..] == s[|s| - |r|..];
      forall i | 1 <= i < |s| - |r| ensures IsWhitespace(s[i]) {
        assert s[i] == s[1..][i - 1];
      }
    }
  }

  /** `TrimEnd` keeps a prefix that does not end with whitespace, and
      everything it removes is whitespace. */
  lemma {:induction false} TrimEndSpec(s: string)
    ensures |TrimEnd(s)| <= |s| && TrimEnd(s) == s[..|TrimEnd(s)|]
    ensures TrimEnd(s) == [] || !IsWhitespace(TrimEnd(s)[|TrimEnd(s)| - 1])
    ensures forall i :: |TrimEnd(s)| <= i < |s| ==> IsWhitespace(s[i])
    decreases |s|
  {
    if s != [] && IsWhitespace(s[|s| - 1]) {
      var t := s[..|s| - 1];
      TrimEndSpec(t);
      var r := TrimEnd(t);
      assert t[..|r|] == s[..|r|];
      forall i | |r| <= i < |s| - 1 ensures IsWhitespace(s[i]) {
        assert s[i] == t[i];
      }
    }
  }

  /** Trimming keeps the contiguous piece of the input that starts after the
      leading whitespace and leaves a piece that neither starts nor ends with
      whitespace. */
  lemma TrimIsInfix(s: string)
    ensures |Trim(s)| <= |TrimStart(s)| <= |s|
    ensures Trim(s) == s[|s| - |TrimStart(s)|..][..|Trim(s)|]
    ensures Trim(s) == [] || (!IsWhitespace(Trim(s)[0]) && !IsWhitespace(Trim(s)[|Trim(s)| - 1]))
  {
    var t := TrimStart(s);
    TrimStartSpec(s);
    TrimEndSpec(t);
    var r := TrimEnd(t);
    if r != [] {
      assert r[0] == t[0];
    }
  }

  /** What trimming removes is whitespace. */
  lemma TrimRemovesWhitespace(s: string, i: int)
    requires 0 <= i < |s|
    requires i < |s| - |TrimStart(s)| || |s| - |TrimStart(s)| + |Trim(s)| <= i
    ensures IsWhitespace(s[i])
  {
    var t := TrimStart(s);
    TrimStartSpec(s);
    TrimEndSpec(t);
    var k := |s| - |t|;
    if k <= i {
      assert s[i] == t[i - k];
    }
  }

  /** A string that neither starts nor ends with whitespace is its own trim. */
  lemma TrimOfTrimmed(s: string)
    requires s == [] || (!IsWhitespace(s[0]) && !IsWhitespace(s[|s| - 1]))
    ensures Trim(s) == s
  {
  }

  lemma TrimIdempotent(s: string)
    ensures Trim(Trim(s)) == Trim(s)
  {
    TrimIsInfix(s);
    TrimOfTrimmed(Trim(s));
  }

  /** Trimming adds no character. */
  lemma TrimKeepsOut(s: string, c: char)
    requires c !in s
    ensures c !in Trim(s)
  {
    TrimIsInfix(s);
    var k := |s| - |TrimStart(s)|;
    var r := Trim(s);
    forall i | 0 <= i < |r| ensures r[i] != c {
      assert r[i] == s[k + i];
    }
  }

  /** `s.startsWith(p)`. */
  predicate StartsWith(s: string, p: string) {
    |p| <= |s| && s[..|p|] == p
  }

  /** `s.includes(p)`. */
  predicate Includes(s: string, p: string) {
    exists i :: 0 <= i <= |s| - |p| && StartsWith(s[i..], p)
  }

  /** A text that starts with the pattern includes it. */
  lemma IncludesAtStart(s: string, p: string)
    requires StartsWith(s, p)
    ensures Includes(s, p)
  {
    assert s[0..] == s;
  }

  /** The two characters `a`, `b` stand at positions `i`, `i + 1` of `s`. */
  predicate PairAt(s: string, i: int, a: char, b: char) {
    0 <= i && i + 1 < |s| && s[i] == a && s[i + 1] == b
  }

  predicate ContainsPair(s: string, a: char, b: char) {
    exists i :: 0 <= i < |s| && PairAt(s, i, a, b)
  }

  /** A pair absent from a text is absent from each of its suffixes. */
  lemma NoPairInSuffix(p: string, s: string, a: char, b: char)
    requires !ContainsPair(p + s, a, b)
    ensures !ContainsPair(s, a, b)
  {
    forall j | 0 <= j < |s| && PairAt(s, j, a, b) ensures false {
      assert PairAt(p + s, |p| + j, a, b);
    }
  }

  /** `s.indexOf(ab)` for a two-character pattern, `None` standing for -1. */
  function IndexOfPair(s: string, a: char, b: char): (r: Option<nat>)
    ensures r.Some? ==> r.value + 1 < |s|
    decreases |s|
  {
    if |s| < 2 then None
    else if s[0] == a && s[1] == b then Some(0)
    else
      var rest := IndexOfPair(s[1..], a, b);
      if rest.None? then None else Some(rest.value + 1)
  }

  /** The index found is the first occurrence, and there is none exactly
      when the pair does not occur. */
  lemma {:induction false} IndexOfPairSpec(s: string, a: char, b: char)
    ensures IndexOfPair(s, a, b).Some? ==> PairAt(s, IndexOfPair(s, a, b).value, a, b)
    ensures IndexOfPair(s, a, b).Some? ==> forall j :: 0 <= j < IndexOfPair(s, a, b).value ==> !PairAt(s, j, a, b)
    ensures IndexOfPair(s, a, b).None? <==> !ContainsPair(s, a, b)
    decreases |s|
  {
    if |s| >= 2 && !(s[0] == a && s[1] == b) {
      IndexOfPairSpec(s[1..], a, b);
      assert !PairAt(s, 0, a, b);
      assert forall j :: 1 <= j ==> (PairAt(s, j, a, b) <==> PairAt(s[1..], j - 1, a, b));
      assert forall j :: PairAt(s[1..], j, a, b) ==> PairAt(s, j + 1, a, b);
    } else if |s| >= 2 {
      assert PairAt(s, 0, a, b);
    }
  }

  /** A first occurrence is what `IndexOfPair` finds. */
  lemma IndexOfPairIs(s: string, a: char, b: char, k: nat)
    requires PairAt(s, k, a, b)
    requires forall j :: 0 <= j < k ==> !PairAt(s, j, a, b)
    ensures IndexOfPair(s, a, b) == Some(k)
  {
    IndexOfPairSpec(s, a, b);
    var r := IndexOfPair(s, a, b);
    assert r.Some?;
    assert !(r.value < k) && !(k < r.value);
  }

  /** `s.replace(/\r\n/g, '\n')`: one left-to-right pass over non-overlapping matches. */
  function ReplaceCrlf(s: string): string
    decreases |s|
  {
    if |s| >= 2 && s[0] == '\r' && s[1] == '\n' then "\n" + ReplaceCrlf(s[2..])
    else if s == [] then []
    else [s[0]] + ReplaceCrlf(s[1..])
  }

  /** Every LF written as CRLF: the line endings of a CRLF peer. */
  function ReplaceLf(s: string): (r: string)
    ensures '\r' !in s ==> forall i :: 0 <= i < |r| && r[i] == '\r' ==> i + 1 < |r| && r[i + 1] == '\n'
    decreases |s|
  {
    if s == [] then []
    else if s[0] == '\n' then "\r\n" + ReplaceLf(s[1..])
    else [s[0]] + ReplaceLf(s[1..])
  }

  /** Text without CR is left alone by the replacement. */
  lemma {:induction false} ReplaceCrlfNoCr(s: string)
    requires '\r' !in s
    ensures ReplaceCrlf(s) == s
    decreases |s|
  {
    if s != [] {
      assert '\r' !in s[1..];
      ReplaceCrlfNoCr(s[1..]);
    }
  }

  /** Undoing CRLF line endings gives back the LF text. */
  lemma {:induction false} ReplaceCrlfUndoesReplaceLf(s: string)
    requires '\r' !in s
    ensures ReplaceCrlf(ReplaceLf(s)) == s
    decreases |s|
  {
    if s != [] {
      assert '\r' !in s[1..];
      ReplaceCrlfUndoesReplaceLf(s[1..]);
      if s[0] == '\n' {
        assert ("\r\n" + ReplaceLf(s[1..]))[2..] == ReplaceLf(s[1..]);
      } else {
        var t := [s[0]] + ReplaceLf(s[1..]);
        assert t[1..] == ReplaceLf(s[1..]);
      }
    }
  }

  /** The replacement can be done piecewise when no CR is split from its LF. */
  lemma {:induction false} ReplaceCrlfAppend(s: string, t: string)
    requires s == [] || s[|s| - 1] != '\r'
    ensures ReplaceCrlf(s + t) == ReplaceCrlf(s) + ReplaceCrlf(t)
    decreases |s|
  {
    var u := s + t;
    if s == [] {
      assert u == t;
    } else if |s| >= 2 && s[0] == '\r' && s[1] == '\n' {
      assert u[0] == '\r' && u[1] == '\n';
      assert u[2..] == s[2..] + t;
      assert ReplaceCrlf(u) == "\n" + ReplaceCrlf(s[2..] + t);
      ReplaceCrlfAppend(s[2..], t);
      AppendAssoc("\n", ReplaceCrlf(s[2..]), ReplaceCrlf(t));
    } else {
      assert u[0] == s[0];
      assert !(|u| >= 2 && u[0] == '\r' && u[1] == '\n') by {
        if |s| == 1 {
          assert s[0] != '\r';
        } else {
          assert u[1] == s[1];
        }
      }
      assert u[1..] == s[1..] + t;
      assert ReplaceCrlf(u) == [s[0]] + ReplaceCrlf(s[1..] + t);
      ReplaceCrlfAppend(s[1..], t);
      AppendAssoc([s[0]], ReplaceCrlf(s[1..]), ReplaceCrlf(t));
    }
  }

  /** The first character after the replacement. */
  lemma ReplaceCrlfHead(s: string)
    requires s != []
    ensures ReplaceCrlf(s) != []
    ensures ReplaceCrlf(s)[0] == if |s| >= 2 && s[0] == '\r' && s[1] == '\n' then '\n' else s[0]
  {
  }

  /** One pass leaves no CRLF behind, provided the input has no CR CR. */
  lemma {:induction false} ReplaceCrlfLeavesNoCrlf(s: string)
    requires !ContainsPair(s, '\r', '\r')
    ensures !ContainsPair(ReplaceCrlf(s), '\r', '\n')
    decreases |s|
  {
    if s == [] {
    } else if |s| >= 2 && s[0] == '\r' && s[1] == '\n' {
      var rest := s[2..];
      assert forall j :: PairAt(rest, j, '\r', '\r') ==> PairAt(s, j + 2, '\r', '\r');
      ReplaceCrlfLeavesNoCrlf(rest);
      var r := ReplaceCrlf(s);
      assert r == "\n" + ReplaceCrlf(rest);
      forall j | PairAt(r, j, '\r', '\n') ensures false {
        assert j >= 1;
        assert PairAt(ReplaceCrlf(rest), j - 1, '\r', '\n');
      }
    } else {
      var rest := s[1..];
      assert forall j :: PairAt(rest, j, '\r', '\r') ==> PairAt(s, j + 1, '\r', '\r');
      ReplaceCrlfLeavesNoCrlf(rest);
      var r := ReplaceCrlf(s);
      assert r == [s[0]] + ReplaceCrlf(rest);
      assert !PairAt(s, 0, '\r', '\r');
      forall j | PairAt(r, j, '\r', '\n') ensures false {
        if j == 0 {
          ReplaceCrlfHead(rest);
        } else {
          assert PairAt(ReplaceCrlf(rest), j - 1, '\r', '\n');
        }
      }
    }
  }

  /** Without that proviso a CRLF can survive one pass. */
  lemma ReplaceCrlfKeepsCrCrLf()
    ensures ReplaceCrlf("\r\r\n") == "\r\n"
  {
    assert "\r\r\n"[1..] == "\r\n";
    assert "\r\n"[2..] == "";
  }

  /** Every CR of `s` opens a CRLF pair: the shape of a text whose lines
      end in CRLF. */
  predicate CrOnlyInCrlf(s: string) {
    forall i :: 0 <= i < |s| && s[i] == '\r' ==> i + 1 < |s| && s[i + 1] == '\n'
  }

  lemma CrOnlyInCrlfSuffix(p: string, s: string)
    requires CrOnlyInCrlf(p + s)
    ensures CrOnlyInCrlf(s)
  {
    forall i | 0 <= i < |s| && s[i] == '\r' ensures i + 1 < |s| && s[i + 1] == '\n' {
      assert (p + s)[|p| + i] == '\r';
      assert (p + s)[|p| + i + 1] == s[i + 1];
    }
  }

  predicate EndsInCr(s: string) {
    s != [] && s[|s| - 1] == '\r'
  }

  /** `s` without one trailing CR. */
  function DropCr(s: string): string {
    if EndsInCr(s) then s[..|s| - 1] else s
  }

  /** When every CR opens a CRLF pair, the replacement removes them all. */
  lemma {:induction false} ReplaceCrlfRemovesCr(s: string)
    requires CrOnlyInCrlf(s)
    ensures '\r' !in ReplaceCrlf(s)
    decreases |s|
  {
    if |s| >= 2 && s[0] == '\r' && s[1] == '\n' {
      assert s == s[..2] + s[2..];
      CrOnlyInCrlfSuffix(s[..2], s[2..]);
      ReplaceCrlfRemovesCr(s[2..]);
    } else if s != [] {
      assert s[0] != '\r';
      assert s == [s[0]] + s[1..];
      CrOnlyInCrlfSuffix([s[0]], s[1..]);
      ReplaceCrlfRemovesCr(s[1..]);
    }
  }

  /** A text whose last CR may wait for the LF of what follows: the
      replacement keeps that CR at the end and removes every other. */
  lemma ReplaceCrlfDropCr(s: string)
    requires CrOnlyInCrlf(DropCr(s))
    ensures ReplaceCrlf(s) == ReplaceCrlf(DropCr(s)) + (if EndsInCr(s) then "\r" else "")
    ensures '\r' !in ReplaceCrlf(DropCr(s))
  {
    ReplaceCrlfRemovesCr(DropCr(s));
    if EndsInCr(s) {
      var d := DropCr(s);
      assert s == d + "\r";
      assert !EndsInCr(d);
      ReplaceCrlfAppend(d, "\r");
      assert ReplaceCrlf("\r") == "\r";
    }
  }

  /** A CR after text that does not end in CR: the replacement of what
      precedes it is unaffected. */
  lemma ReplaceCrlfBeforeCr(p: string, t: string)
    requires p == [] || p[|p| - 1] != '\r'
    ensures ReplaceCrlf(p + "\r") == ReplaceCrlf(p) + "\r"
    ensures ReplaceCrlf(p + "\r" + t) == ReplaceCrlf(p) + ReplaceCrlf("\r" + t)
  {
    ReplaceCrlfAppend(p, "\r");
    assert "\r"[1..] == "";
    ReplaceCrlfAppend(p, "\r" + t);
    AppendAssoc(p, "\r", t);
  }

  /** A text ending in a CR that waits for the LF of what follows: the
      replacement of the whole is that of the text before the CR, then that
      of the CR and what follows. */
  lemma ReplaceCrlfAtWaitingCr(q: string, t: string)
    requires EndsInCr(q)
    requires CrOnlyInCrlf(q + t)
    ensures ReplaceCrlf(q) == ReplaceCrlf(DropCr(q)) + "\r"
    ensures ReplaceCrlf(q + t) == ReplaceCrlf(DropCr(q)) + ReplaceCrlf("\r" + t)
  {
    var u := q + t;
    var p := DropCr(q);
    assert q == p + "\r";
    if p != [] {
      assert u[|p|] == '\r';
      assert u[|p| - 1] == p[|p| - 1];
    }
    ReplaceCrlfBeforeCr(p, t);
  }

  /** The replacement of a text that ends in a waiting CR (`w == "\r"`) or
      in none (`w == ""`), followed by more text. */
  lemma ReplaceCrlfJoin(q: string, lf: string, w: string, t: string)
    requires w == "" || w == "\r"
    requires ReplaceCrlf(q) == lf + w
    requires EndsInCr(q) <==> w == "\r"
    requires CrOnlyInCrlf(q + t)
    ensures ReplaceCrlf(q + t) == lf + ReplaceCrlf(w + t)
  {
    if w == "" {
      ReplaceCrlfAppend(q, t);
      assert lf + w == lf;
      assert w + t == t;
    } else {
      ReplaceCrlfAtWaitingCr(q, t);
      assert ReplaceCrlf(DropCr(q)) == (lf + w)[..|lf|] == lf;
    }
  }

  /** A waiting CR completed by the LF that opens `c`: the pair becomes that
      LF, and only a CR at the end of `c` is left waiting. */
  lemma ReplaceCrlfAfterWaitingCr(c: string)
    requires c != [] && c[0] == '\n'
    requires CrOnlyInCrlf(DropCr(c))
    ensures ReplaceCrlf("\r" + c) == ReplaceCrlf(DropCr(c)) + (if EndsInCr(c) then "\r" else "")
  {
    var u := "\r" + c;
    assert u[0] == '\r' && u[1] == '\n';
    assert u[2..] == c[1..];
    assert ReplaceCrlf(u) == "\n" + ReplaceCrlf(c[1..]);
    var d := DropCr(c);
    var e := c[1..];
    assert EndsInCr(e) == EndsInCr(c);
    assert d[0] == '\n';
    assert d[1..] == DropCr(e);
    assert ReplaceCrlf(d) == "\n" + ReplaceCrlf(d[1..]);
    assert d == [d[0]] + d[1..];
    CrOnlyInCrlfSuffix([d[0]], d[1..]);
    ReplaceCrlfDropCr(e);
    AppendAssoc("\n", ReplaceCrlf(DropCr(e)), if EndsInCr(c) then "\r" else "");
  }

  /** Joins pieces with one separator character between them. */
  function Join(parts: seq<string>, sep: char): string
  {
    if parts == [] then []
    else if |parts| == 1 then parts[0]
    else parts[0] + [sep] + Join(parts[1..], sep)
  }

  /** `s.split(sep)` for a one-character separator. */
  function Split(s: string, sep: char): (r: seq<string>)
    ensures |r| >= 1
    ensures forall i :: 0 <= i < |r| ==> sep !in r[i]
    ensures Join(r, sep) == s
    decreases |s|
  {
    if s == [] then [[]]
    else
      var rest := Split(s[1..], sep);
      if s[0] == sep then
        assert ([[]] + rest)[1..] == rest;
        [[]] + rest
      else
        var r := [[s[0]] + rest[0]] + rest[1..];
        assert |r| > 1 ==> r[1..] == rest[1..];
        assert |rest| > 1 ==> Join(rest, sep) == rest[0] + [sep] + Join(rest[1..], sep);
        assert s == [s[0]] + s[1..];
        r
  }

  /** A piece without the separator splits into itself. */
  lemma {:induction false} SplitWithoutSeparator(s: string, sep: char)
    requires sep !in s
    ensures Split(s, sep) == [s]
    decreases |s|
  {
    if s != [] {
      assert sep !in s[1..];
      SplitWithoutSeparator(s[1..], sep);
    }
  }

  /** Splitting at the first separator. */
  lemma {:induction false} SplitAtSeparator(p: string, sep: char, t: string)
    requires sep !in p
    ensures Split(p + [sep] + t, sep) == [p] + Split(t, sep)
    decreases |p|
  {
    var s := p + [sep] + t;
    if p == [] {
      assert s[1..] == t;
    } else {
      assert s[1..] == p[1..] + [sep] + t;
      assert sep !in p[1..];
      SplitAtSeparator(p[1..], sep, t);
      assert p == [p[0]] + p[1..];
    }
  }

  /** Split undoes Join when no piece holds the separator. */
  lemma {:induction false} SplitUndoesJoin(parts: seq<string>, sep: char)
    requires |parts| >= 1
    requires forall i :: 0 <= i < |parts| ==> sep !in parts[i]
    ensures Split(Join(parts, sep), sep) == parts
    decreases |parts|
  {
    if |parts| == 1 {
      SplitWithoutSeparator(parts[0], sep);
    } else {
      SplitUndoesJoin(parts[1..], sep);
      SplitAtSeparator(parts[0], sep, Join(parts[1..], sep));
      assert parts == [parts[0]] + parts[1..];
    }
  }

  function DigitChar(d: nat): (c: char)
    requires d < 10
    ensures '0' <= c <= '9' && c as int - '0' as int == d
  {
    ('0' as int + d) as char
  }

  predicate AllDigits(s: string) {
    forall i :: 0 <= i < |s| ==> '0' <= s[i] <= '9'
  }

  /** The decimal numeral of `n`, as template literals and `String` print it. */
  function NatToString(n: nat): (r: string)
    ensures |r| >= 1 && AllDigits(r)
    decreases n
  {
    if n < 10 then [DigitChar(n)] else NatToString(n / 10) + [DigitChar(n % 10)]
  }

  /** Reads a decimal numeral back. */
  function ParseDecimal(s: string): nat
    requires AllDigits(s)
    decreases |s|
  {
    if s == [] then 0
    else
      assert AllDigits(s[..|s| - 1]);
      ParseDecimal(s[..|s| - 1]) * 10 + (s[|s| - 1] as int - '0' as int)
  }

  /** The numeral denotes the number it was made from. */
  lemma {:induction false} ParseNatToString(n: nat)
    ensures ParseDecimal(NatToString(n)) == n
    decreases n
  {
    var r := NatToString(n);
    if n < 10 {
      assert r[..0] == [];
    } else {
      ParseNatToString(n / 10);
      assert r[..|r| - 1] == NatToString(n / 10);
    }
  }
}
