/**
 String operations that several components share: trimming, splitting on a
 separator and joining. Strings are sequences of characters.
 */
module Text {

  /** The characters that Go's `strings.TrimSpace` removes (Unicode White_Space). */
  predicate IsSpace(c: char) {
    || c in {'\t', '\n', '\U{0B}', '\U{0C}', '\r', ' ', '\U{85}', '\U{A0}', '\U{1680}'}
    || '\U{2000}' <= c <= '\U{200A}'
    || c in {'\U{2028}', '\U{2029}', '\U{202F}', '\U{205F}', '\U{3000}'}
  }

  predicate IsNewline(c: char) {
    c == '\n'
  }

  predicate IsComma(c: char) {
    c == ','
  }

  function TrimLeft(s: string, p: char -> bool): string {
    if s != "" && p(s[0]) then TrimLeft(s[1..], p) else s
  }

  function TrimRight(s: string, p: char -> bool): string {
    if s != "" && p(s[|s| - 1]) then TrimRight(s[..|s| - 1], p) else s
  }

  function TrimBy(s: string, p: char -> bool): string {
    TrimRight(TrimLeft(s, p), p)
  }

  function TrimSpace(s: string): string {
    TrimBy(s, IsSpace)
  }

  /** Neither end of `s` is a character to remove. */
  ghost predicate Trimmed(s: string, p: char -> bool) {
    s == "" || (!p(s[0]) && !p(s[|s| - 1]))
  }

  lemma {:induction false} TrimLeftStart(s: string, p: char -> bool)
    ensures var t := TrimLeft(s, p); t == "" || !p(t[0])
  {
    if s != "" && p(s[0]) {
      TrimLeftStart(s[1..], p);
    }
  }

  lemma {:induction false} TrimRightEnds(s: string, p: char -> bool)
    ensures var t := TrimRight(s, p);
            (t == "" || !p(t[|t| - 1])) && t <= s
  {
    if s != "" && p(s[|s| - 1]) {
      TrimRightEnds(s[..|s| - 1], p);
    }
  }

  /** A string is left alone by trimming exactly when both its ends are clean. */
  lemma TrimByFixed(s: string, p: char -> bool)
    ensures Trimmed(TrimBy(s, p), p)
    ensures TrimBy(s, p) == s <==> Trimmed(s, p)
  {
    TrimLeftStart(s, p);
    TrimRightEnds(TrimLeft(s, p), p);
  }

  lemma TrimSpaceIdempotent(s: string)
    ensures TrimSpace(TrimSpace(s)) == TrimSpace(s)
  {
    TrimByFixed(s, IsSpace);
    TrimByFixed(TrimSpace(s), IsSpace);
  }

  /** Characters of a trimmed string come from the string. */
  lemma {:induction false} TrimLeftChars(s: string, p: char -> bool, c: char)
    requires c in TrimLeft(s, p)
    ensures c in s
  {
    if s != "" && p(s[0]) {
      TrimLeftChars(s[1..], p, c);
    }
  }

  lemma TrimByChars(s: string, p: char -> bool, c: char)
    requires c in TrimBy(s, p)
    ensures c in s
  {
    TrimRightEnds(TrimLeft(s, p), p);
    TrimLeftChars(s, p, c);
  }

  /** `strings.Split(s, sep)`: always at least one part. */
  function Split(s: string, sep: char): (parts: seq<string>)
    ensures |parts| > 0
  {
    if s == "" then [""]
    else
      var rest := Split(s[1..], sep);
      if s[0] == sep then [""] + rest
      else [[s[0]] + rest[0]] + rest[1..]
  }

  /** `strings.Join(parts, sep)`. */
  function Join(parts: seq<string>, sep: char): string {
    if parts == [] then ""
    else if |parts| == 1 then parts[0]
    else parts[0] + [sep] + Join(parts[1..], sep)
  }

  ghost predicate SepFree(parts: seq<string>, sep: char) {
    forall i :: 0 <= i < |parts| ==> sep !in parts[i]
  }

  lemma {:induction false} SplitPartsSepFree(s: string, sep: char)
    ensures SepFree(Split(s, sep), sep)
  {
    if s != "" {
      SplitPartsSepFree(s[1..], sep);
    }
  }

  lemma {:induction false} SplitOneWord(w: string, sep: char)
    requires sep !in w
    ensures Split(w, sep) == [w]
  {
    if w != "" {
      SplitOneWord(w[1..], sep);
      assert w == [w[0]] + w[1..];
    }
  }

  lemma {:induction false} SplitAtFirst(w: string, rest: string, sep: char)
    requires sep !in w
    ensures Split(w + [sep] + rest, sep) == [w] + Split(rest, sep)
  {
    var s := w + [sep] + rest;
    if w == "" {
      assert s[1..] == rest;
    } else {
      SplitAtFirst(w[1..], rest, sep);
      assert s[1..] == w[1..] + [sep] + rest;
      assert w == [w[0]] + w[1..];
    }
  }

  /** Splitting undoes joining for parts without the separator. */
  lemma {:induction false} SplitJoin(parts: seq<string>, sep: char)
    requires parts != [] && SepFree(parts, sep)
    ensures Split(Join(parts, sep), sep) == parts
  {
    if |parts| == 1 {
      SplitOneWord(parts[0], sep);
    } else {
      SplitJoin(parts[1..], sep);
      SplitAtFirst(parts[0], Join(parts[1..], sep), sep);
    }
  }

  /** Joining undoes splitting for every string. */
  lemma {:induction false} JoinSplit(s: string, sep: char)
    ensures Join(Split(s, sep), sep) == s
  {
    if s != "" {
      JoinSplit(s[1..], sep);
      var rest := Split(s[1..], sep);
      if s[0] == sep {
        assert ([""] + rest)[1..] == rest;
      } else {
        var parts := [[s[0]] + rest[0]] + rest[1..];
        assert parts[1..] == rest[1..];
      }
    }
  }

  lemma {:induction false} JoinEnds(parts: seq<string>, sep: char)
    requires parts != []
    ensures parts[0] != "" ==> Join(parts, sep) != "" && Join(parts, sep)[0] == parts[0][0]
    ensures parts[0] == "" && |parts| > 1 ==> Join(parts, sep) != "" && Join(parts, sep)[0] == sep
    ensures var last := parts[|parts| - 1]; var j := Join(parts, sep);
            && (last != "" ==> j != "" && j[|j| - 1] == last[|last| - 1])
            && (last == "" && |parts| > 1 ==> j != "" && j[|j| - 1] == sep)
  {
    if |parts| > 1 {
      JoinEnds(parts[1..], sep);
    }
  }

  /** The decimal digits of a natural number. */
  function Digits(n: nat): (s: string)
    ensures |s| > 0 && forall i :: 0 <= i < |s| ==> '0' <= s[i] <= '9'
  {
    var last := [('0' as int + n % 10) as char];
    if n < 10 then last else Digits(n / 10) + last
  }

  /** `strconv.Itoa`. */
  function Itoa(n: int): string {
    if n < 0 then "-" + Digits(-n) else Digits(n)
  }

  lemma {:induction false} DigitsInjective(a: nat, b: nat)
    requires Digits(a) == Digits(b)
    ensures a == b
  {
    var s, t := Digits(a), Digits(b);
    assert s[|s| - 1] == t[|t| - 1];
    assert a % 10 == b % 10;
    if a >= 10 && b >= 10 {
      assert s[..|s| - 1] == Digits(a / 10) && t[..|t| - 1] == Digits(b / 10);
      DigitsInjective(a / 10, b / 10);
    }
  }

  lemma ItoaInjective(a: int, b: int)
    requires Itoa(a) == Itoa(b)
    ensures a == b
  {
    assert a < 0 <==> Itoa(a)[0] == '-';
    assert b < 0 <==> Itoa(b)[0] == '-';
    if a < 0 {
      assert Itoa(a)[1..] == Digits(-a) && Itoa(b)[1..] == Digits(-b);
      DigitsInjective(-a, -b);
    } else {
      DigitsInjective(a, b);
    }
  }
}
