/** The string operations the program uses, as Python defines them. */
module Text {

  /** str.isspace for one character. */
  predicate IsSpace(c: char) {
    var n := c as int;
    9 <= n <= 13 || 28 <= n <= 32 || n == 133 || n == 160 || n == 5760 || 8192 <= n <= 8202
    || n == 8232 || n == 8233 || n == 8239 || n == 8287 || n == 12288
  }

  function LStrip(s: string): string {
    if s != "" && IsSpace(s[0]) then LStrip(s[1..]) else s
  }

  function RStrip(s: string): string {
    if s != "" && IsSpace(s[|s| - 1]) then RStrip(s[..|s| - 1]) else s
  }

  function Strip(s: string): string { RStrip(LStrip(s)) }

  predicate NoSpace(s: string) { forall i :: 0 <= i < |s| ==> !IsSpace(s[i]) }

  predicate AllSpace(s: string) { forall i :: 0 <= i < |s| ==> IsSpace(s[i]) }

  /** The first maximal run of non-space characters at the start of s. */
  function Word(s: string): (w: string)
    ensures w <= s && NoSpace(w) && (|w| < |s| ==> IsSpace(s[|w|]))
  {
    if s == "" || IsSpace(s[0]) then "" else [s[0]] + Word(s[1..])
  }

  lemma {:induction false} LStripShorter(s: string)
    ensures |LStrip(s)| <= |s| && (LStrip(s) != "" ==> !IsSpace(LStrip(s)[0]))
  {
    if s != "" && IsSpace(s[0]) { LStripShorter(s[1..]); }
  }

  /** str.split() with no separator. */
  function Words(s: string): seq<string>
    decreases |s|
  {
    LStripShorter(s);
    var t := LStrip(s);
    if t == "" then [] else [Word(t)] + Words(t[|Word(t)|..])
  }

  /** str.replace: scan left to right, replacing each occurrence that does not overlap the last. */
  function Replace(s: string, pattern: string, replacement: string): string
    requires pattern != ""
    decreases |s|
  {
    if |s| < |pattern| then s
    else if pattern <= s then replacement + Replace(s[|pattern|..], pattern, replacement)
    else [s[0]] + Replace(s[1..], pattern, replacement)
  }

  /** str comparison: code point by code point. */
  predicate LexLe(a: string, b: string) {
    a == "" || (b != "" && (a[0] < b[0] || (a[0] == b[0] && LexLe(a[1..], b[1..]))))
  }

  lemma {:induction false} LexTotal(a: string, b: string)
    ensures LexLe(a, b) || LexLe(b, a)
    ensures LexLe(a, b) && LexLe(b, a) ==> a == b
  {
    if a != "" && b != "" && a[0] == b[0] { LexTotal(a[1..], b[1..]); }
  }

  lemma {:induction false} LexReflexive(a: string)
    ensures LexLe(a, a)
  {
    if a != "" { LexReflexive(a[1..]); }
  }

  lemma {:induction false} LexTransitive(a: string, b: string, c: string)
    requires LexLe(a, b) && LexLe(b, c)
    ensures LexLe(a, c)
  {
    if a != "" && a[0] == b[0] && b[0] == c[0] { LexTransitive(a[1..], b[1..], c[1..]); }
  }

  // ---------------------------------------------------------------- decimal numbers

  predicate IsDigit(c: char) { '0' <= c <= '9' }

  predicate AllDigits(s: string) { s != "" && forall i :: 0 <= i < |s| ==> IsDigit(s[i]) }

  function DigitValue(c: char): nat
    requires IsDigit(c)
  {
    c as int - '0' as int
  }

  /** int(s) for a string of ASCII digits. */
  function Value(s: string): nat
    requires forall i :: 0 <= i < |s| ==> IsDigit(s[i])
  {
    if s == "" then 0 else Value(s[..|s| - 1]) * 10 + DigitValue(s[|s| - 1])
  }

  /** str(n). */
  function Decimal(n: nat): (s: string)
    ensures AllDigits(s) && Value(s) == n
  {
    var digit := ['0' + (n % 10) as char];
    if n < 10 then digit
    else
      var s := Decimal(n / 10) + digit;
      assert s[..|s| - 1] == Decimal(n / 10);
      s
  }

  /** upper() of a character, where it matters for comparing with an ASCII word: no other character
      becomes one of the letters of INBOX or NIL. */
  function Upper(c: char): char {
    if 'a' <= c <= 'z' then (c as int - 32) as char
    else if c as int == 305 then 'I'     // dotless i
    else c
  }

  /** s.upper() == word, for a word in upper case. */
  predicate UpperEquals(s: string, word: string) {
    |s| == |word| && forall i :: 0 <= i < |s| ==> Upper(s[i]) == word[i]
  }
}
