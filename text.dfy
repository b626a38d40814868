/**
 * The pieces of Go's `strings` and `strconv` packages that the screen wrapper
 * relies on, over strings as sequences of characters.
 */
module Text {
  import opened Wrappers

  const MinInt64: int := -0x8000_0000_0000_0000
  const MaxInt64: int := 0x7FFF_FFFF_FFFF_FFFF
  const MaxUint64: int := 0xFFFF_FFFF_FFFF_FFFF

  /** Go's `unicode.IsSpace`, the white space of `strings.Fields` and `strings.TrimSpace`. */
  predicate IsSpace(c: char) {
    c == '\t' || c == '\n' || c == '\U{0B}' || c == '\U{0C}' || c == '\r' || c == ' ' ||
    c == '\U{85}' || c == '\U{A0}' || c == '\U{1680}' || ('\U{2000}' <= c <= '\U{200A}') ||
    c == '\U{2028}' || c == '\U{2029}' || c == '\U{202F}' || c == '\U{205F}' || c == '\U{3000}'
  }

  predicate IsBlank(s: string) {
    forall i | 0 <= i < |s| :: IsSpace(s[i])
  }

  predicate IsDigit(c: char) {
    '0' <= c <= '9'
  }

  predicate AllDigits(s: string) {
    forall i | 0 <= i < |s| :: IsDigit(s[i])
  }

  predicate HasPrefix(s: string, prefix: string) {
    |prefix| <= |s| && s[..|prefix|] == prefix
  }

  /** `strings.Contains` */
  predicate Contains(s: string, sub: string)
    decreases |s|
  {
    HasPrefix(s, sub) || (|s| > 0 && Contains(s[1..], sub))
  }

  /** `sub` occurs in `s` starting at `i`. */
  predicate OccursAt(s: string, sub: string, i: nat) {
    i + |sub| <= |s| && s[i..i + |sub|] == sub
  }

  /** `Contains` holds exactly when `sub` occurs somewhere in `s`. */
  lemma {:induction false} ContainsOccurrence(s: string, sub: string)
    ensures Contains(s, sub) <==> exists i: nat :: OccursAt(s, sub, i)
    decreases |s|
  {
    if |s| > 0 {
      ContainsOccurrence(s[1..], sub);
      if Contains(s, sub) && !HasPrefix(s, sub) {
        var i: nat :| OccursAt(s[1..], sub, i);
        assert s[i + 1..i + 1 + |sub|] == s[1..][i..i + |sub|];
        assert OccursAt(s, sub, i + 1);
      }
      if HasPrefix(s, sub) {
        assert OccursAt(s, sub, 0);
      }
      if exists i: nat :: OccursAt(s, sub, i) {
        var i: nat :| OccursAt(s, sub, i);
        if i > 0 {
          assert s[1..][i - 1..i - 1 + |sub|] == s[i..i + |sub|];
          assert OccursAt(s[1..], sub, i - 1);
        }
      }
    } else if Contains(s, sub) {
      assert OccursAt(s, sub, 0);
    }
  }

  /** Index of the first `c` in `s`, or `|s|` when there is none. */
  function IndexOf(s: string, c: char): (i: nat)
    ensures i <= |s|
    ensures c !in s[..i]
    ensures i < |s| ==> s[i] == c
    decreases |s|
  {
    if |s| == 0 || s[0] == c then 0 else 1 + IndexOf(s[1..], c)
  }

  /** Index of the last `c` in `s`, or -1 when there is none. */
  function LastIndexOf(s: string, c: char): (i: int)
    ensures -1 <= i < |s|
    ensures i >= 0 ==> s[i] == c
    ensures c !in s[i + 1..]
    decreases |s|
  {
    if |s| == 0 then -1
    else if s[|s| - 1] == c then |s| - 1
    else LastIndexOf(s[..|s| - 1], c)
  }

  // ---------------------------------------------------------------------
  // strings.Split and strings.Join with a one-character separator

  /** `strings.Split(s, string(sep))`: the pieces between separators, always at least one. */
  function Split(s: string, sep: char): (parts: seq<string>)
    ensures |parts| >= 1
    decreases |s|
  {
    if |s| == 0 then [""]
    else
      var rest := Split(s[1..], sep);
      if s[0] == sep then [""] + rest else [[s[0]] + rest[0]] + rest[1..]
  }

  /** No piece of a split holds the separator. */
  lemma {:induction false} SplitPiecesFreeOfSep(s: string, sep: char)
    ensures forall k | 0 <= k < |Split(s, sep)| :: sep !in Split(s, sep)[k]
    decreases |s|
  {
    if |s| > 0 {
      SplitPiecesFreeOfSep(s[1..], sep);
      var rest := Split(s[1..], sep);
      if s[0] != sep {
        assert forall k | 1 <= k < |Split(s, sep)| :: Split(s, sep)[k] == rest[k];
      }
    }
  }

  /** `strings.Join` */
  function Join(parts: seq<string>, sep: string): string
    decreases |parts|
  {
    if |parts| == 0 then ""
    else if |parts| == 1 then parts[0]
    else parts[0] + sep + Join(parts[1..], sep)
  }

  /** Splitting at the first separator: the head piece is the text before it. */
  lemma {:induction false} SplitHead(s: string, sep: char)
    ensures Split(s, sep)[0] == s[..IndexOf(s, sep)]
    ensures IndexOf(s, sep) == |s| ==> Split(s, sep) == [s]
    ensures IndexOf(s, sep) < |s| ==> Split(s, sep)[1..] == Split(s[IndexOf(s, sep) + 1..], sep)
    decreases |s|
  {
    if |s| == 0 {
    } else if s[0] == sep {
      assert ([""] + Split(s[1..], sep))[1..] == Split(s[1..], sep);
    } else {
      SplitHead(s[1..], sep);
      var rest := Split(s[1..], sep);
      assert ([[s[0]] + rest[0]] + rest[1..])[1..] == rest[1..];
      if IndexOf(s, sep) < |s| {
        assert s[1..][IndexOf(s[1..], sep) + 1..] == s[IndexOf(s, sep) + 1..];
      } else {
        assert [s[0]] + s[1..] == s;
      }
    }
  }

  /** Pieces are found again by splitting the text they were joined into. */
  lemma {:induction false} JoinSplit(s: string, sep: char)
    ensures Join(Split(s, sep), [sep]) == s
    decreases |s|
  {
    if |s| > 0 {
      JoinSplit(s[1..], sep);
      var rest := Split(s[1..], sep);
      if s[0] != sep {
        if |rest| > 1 {
          assert ([[s[0]] + rest[0]] + rest[1..])[1..] == rest[1..];
          assert Join(rest, [sep]) == rest[0] + [sep] + Join(rest[1..], [sep]);
        }
      } else {
        assert ([""] + rest)[1..] == rest;
      }
    }
  }

  /** A piece free of the separator, followed by anything: it becomes the head of the first piece. */
  lemma {:induction false} SplitAfterPiece(p: string, tail: string, sep: char)
    requires sep !in p
    ensures Split(p + tail, sep) == [p + Split(tail, sep)[0]] + Split(tail, sep)[1..]
    decreases |p|
  {
    if |p| > 0 {
      assert (p + tail)[1..] == p[1..] + tail;
      assert (p + tail)[0] == p[0] != sep;
      SplitAfterPiece(p[1..], tail, sep);
      var parts := Split(tail, sep);
      assert [p[0]] + (p[1..] + parts[0]) == p + parts[0];
    } else {
      var parts := Split(tail, sep);
      assert p + tail == tail && p + parts[0] == parts[0];
      assert parts == [parts[0]] + parts[1..];
    }
  }

  /** Joining separator-free pieces and splitting again gives the pieces back. */
  lemma {:induction false} SplitJoin(parts: seq<string>, sep: char)
    requires |parts| >= 1
    requires forall i | 0 <= i < |parts| :: sep !in parts[i]
    ensures Split(Join(parts, [sep]), sep) == parts
    decreases |parts|
  {
    if |parts| == 1 {
      SplitAfterPiece(parts[0], "", sep);
      assert parts[0] + "" == parts[0];
    } else {
      var tail := [sep] + Join(parts[1..], [sep]);
      assert Join(parts, [sep]) == parts[0] + tail;
      SplitAfterPiece(parts[0], tail, sep);
      SplitJoin(parts[1..], sep);
      assert tail[1..] == Join(parts[1..], [sep]);
      assert Split(tail, sep) == [""] + parts[1..];
      assert parts[0] + "" == parts[0];
    }
  }

  /** Appending one more piece to a non-empty list adds the separator and the piece. */
  lemma {:induction false} JoinAppend(parts: seq<string>, last: string, sep: string)
    requires |parts| >= 1
    ensures Join(parts + [last], sep) == Join(parts, sep) + sep + last
    decreases |parts|
  {
    if |parts| > 1 {
      assert (parts + [last])[1..] == parts[1..] + [last];
      JoinAppend(parts[1..], last, sep);
    }
  }

  // ---------------------------------------------------------------------
  // strings.Fields and strings.TrimSpace

  /** Length of the run of non-space characters at the start of `s`. */
  function WordLength(s: string): (n: nat)
    ensures n <= |s|
    ensures forall i | 0 <= i < n :: !IsSpace(s[i])
    ensures n < |s| ==> IsSpace(s[n])
    ensures |s| > 0 && !IsSpace(s[0]) ==> n > 0
    decreases |s|
  {
    if |s| == 0 || IsSpace(s[0]) then 0 else 1 + WordLength(s[1..])
  }

  /** A non-empty run of characters none of which is white space. */
  predicate IsWord(w: string) {
    |w| > 0 && forall i | 0 <= i < |w| :: !IsSpace(w[i])
  }

  /** `strings.Fields`: the maximal runs of non-space characters, in order. */
  function Fields(s: string): (fields: seq<string>)
    ensures |fields| == 0 <==> IsBlank(s)
    decreases |s|
  {
    if |s| == 0 then []
    else if IsSpace(s[0]) then
      assert IsBlank(s) <==> IsBlank(s[1..]) by {
        assert forall i | 1 <= i < |s| :: s[i] == s[1..][i - 1];
      }
      Fields(s[1..])
    else
      var n := WordLength(s);
      [s[..n]] + Fields(s[n..])
  }

  /** Every field is a word. */
  lemma {:induction false} FieldsAreWords(s: string)
    ensures forall k | 0 <= k < |Fields(s)| :: IsWord(Fields(s)[k])
    decreases |s|
  {
    if |s| > 0 {
      if IsSpace(s[0]) {
        FieldsAreWords(s[1..]);
      } else {
        var n := WordLength(s);
        FieldsAreWords(s[n..]);
        var rest := Fields(s[n..]);
        assert IsWord(s[..n]);
        assert Fields(s) == [s[..n]] + rest;
      }
    }
  }

  /** Length of the run of white space at the start of `s`. */
  function LeadingSpace(s: string): (n: nat)
    ensures n <= |s|
    ensures forall i | 0 <= i < n :: IsSpace(s[i])
    ensures n < |s| ==> !IsSpace(s[n])
    decreases |s|
  {
    if |s| > 0 && IsSpace(s[0]) then 1 + LeadingSpace(s[1..]) else 0
  }

  /** Length of the run of white space at the end of `s`. */
  function TrailingSpace(s: string): (n: nat)
    ensures n <= |s|
    ensures forall i | |s| - n <= i < |s| :: IsSpace(s[i])
    ensures n < |s| ==> !IsSpace(s[|s| - 1 - n])
    decreases |s|
  {
    if |s| > 0 && IsSpace(s[|s| - 1]) then 1 + TrailingSpace(s[..|s| - 1]) else 0
  }

  /** The first field is the whole run of non-space characters after the leading white space. */
  lemma {:induction false} FirstField(s: string)
    ensures |Fields(s)| > 0 ==>
      var rest := s[LeadingSpace(s)..];
      Fields(s)[0] == rest[..WordLength(rest)]
    decreases |s|
  {
    if |s| > 0 && IsSpace(s[0]) {
      FirstField(s[1..]);
      assert s[1..][LeadingSpace(s[1..])..] == s[LeadingSpace(s)..];
    }
  }

  /**
   * `strings.TrimSpace`: the text between the leading and the trailing white
   * space; it is empty exactly when the whole text is white space.
   */
  function TrimSpace(s: string): (t: string)
    ensures t == [] <==> IsBlank(s)
    ensures |t| > 0 ==> !IsSpace(t[0]) && !IsSpace(t[|t| - 1])
  {
    var lo := LeadingSpace(s);
    if lo == |s| then [] else
      var hi := |s| - TrailingSpace(s);
      assert lo < hi;
      assert s[lo..hi][0] == s[lo] && s[lo..hi][hi - lo - 1] == s[hi - 1];
      s[lo..hi]
  }

  /**
   * The trimmed text is a slice of the text with only white space before
   * and after it: `strings.TrimSpace` removes the leading and trailing white
   * space and nothing else.
   */
  lemma TrimSpaceIsMiddle(s: string)
    ensures exists k | 0 <= k <= |s| - |TrimSpace(s)| ::
      TrimSpace(s) == s[k..k + |TrimSpace(s)|] && IsBlank(s[..k]) && IsBlank(s[k + |TrimSpace(s)|..])
  {
    var lo := LeadingSpace(s);
    if lo == |s| {
      assert s[..lo] == s && TrimSpace(s) == s[lo..lo];
      assert IsBlank(s[..lo]);
    } else {
      var hi := |s| - TrailingSpace(s);
      assert TrimSpace(s) == s[lo..hi];
      assert forall i | 0 <= i < lo :: s[..lo][i] == s[i];
      assert forall i | 0 <= i < |s| - hi :: s[hi..][i] == s[hi + i];
      assert IsBlank(s[..lo]) && IsBlank(s[hi..]);
    }
  }

  // ---------------------------------------------------------------------
  // strconv.Atoi and strconv.Itoa on a 64-bit platform

  function DigitValue(c: char): nat
    requires IsDigit(c)
  {
    c as int - '0' as int
  }

  function DigitChar(d: nat): (c: char)
    requires d < 10
    ensures IsDigit(c) && DigitValue(c) == d
  {
    ('0' as int + d) as char
  }

  /** The value of a run of decimal digits. */
  function DigitsValue(s: string): nat
    requires AllDigits(s)
    decreases |s|
  {
    if |s| == 0 then 0 else 10 * DigitsValue(s[..|s| - 1]) + DigitValue(s[|s| - 1])
  }

  function InInt64(v: int): Option<int> {
    if MinInt64 <= v <= MaxInt64 then Some(v) else None
  }

  /**
   * `strconv.Atoi`: an optional sign and at least one decimal digit, whose
   * value fits in a 64-bit int; anything else is a parse error (`None`).
   */
  function Atoi(s: string): (r: Option<int>)
    ensures r.Some? ==> MinInt64 <= r.value <= MaxInt64
    ensures |s| > 0 && AllDigits(s) ==> r == InInt64(DigitsValue(s))
    ensures |s| > 1 && (s[0] == '+' || s[0] == '-') && AllDigits(s[1..]) ==>
      r == InInt64((if s[0] == '-' then -1 else 1) * DigitsValue(s[1..]))
    ensures r.Some? ==>
      (|s| > 0 && AllDigits(s)) || (|s| > 1 && (s[0] == '+' || s[0] == '-') && AllDigits(s[1..]))
  {
    if |s| > 0 && (s[0] == '+' || s[0] == '-') then
      if |s| == 1 || !AllDigits(s[1..]) then None
      else
        var magnitude: int := DigitsValue(s[1..]);
        InInt64(if s[0] == '-' then -magnitude else magnitude)
    else if |s| == 0 || !AllDigits(s) then None
    else InInt64(DigitsValue(s))
  }

  /** Decimal digits of a natural number, without leading zeros. */
  function FormatNat(n: nat): (s: string)
    ensures |s| >= 1 && AllDigits(s) && DigitsValue(s) == n
    decreases n
  {
    if n < 10 then [DigitChar(n)]
    else
      var prefix := FormatNat(n / 10);
      var s := prefix + [DigitChar(n % 10)];
      assert s[..|s| - 1] == prefix;
      s
  }

  /** `strconv.Itoa` */
  function Itoa(n: int): string {
    if n < 0 then "-" + FormatNat(-n) else FormatNat(n)
  }

  /** Every 64-bit integer is read back by `Atoi` from the text `Itoa` writes. */
  lemma AtoiItoa(n: int)
    requires MinInt64 <= n <= MaxInt64
    ensures Atoi(Itoa(n)) == Some(n)
  {
    var digits := FormatNat(if n < 0 then -n else n);
    if n < 0 {
      assert Itoa(n)[1..] == digits;
    } else {
      assert IsDigit(digits[0]);
    }
  }
}
