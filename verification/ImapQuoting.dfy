/** Printing and parsing of IMAP mailbox names and LIST responses. */
module ImapQuoting {
  import opened Cursors
  import opened Text
  import opened TextLaws

  const BACKSLASH := '\\'
  const QUOTE := '"'

  /** Quoted string (section 4.3 of RFC 3501): backslash and quote are escaped by two replaces. */
  function QuoteMailbox(mailbox: string): string {
    [QUOTE] + Replace(Replace(mailbox, [BACKSLASH], [BACKSLASH, BACKSLASH]), [QUOTE], [BACKSLASH, QUOTE]) + [QUOTE]
  }

  /** Unquoting by two replaces over the whole string, one after the other. */
  function ParseAtom(value: string): string {
    var v := Strip(value);
    if |v| >= 2 && v[0] == QUOTE && v[|v| - 1] == QUOTE then
      Replace(Replace(v[1..|v| - 1], [BACKSLASH, BACKSLASH], [BACKSLASH]), [BACKSLASH, QUOTE], [QUOTE])
    else v
  }

  /** What escaping does, character by character. */
  function Escaped(m: string): string {
    if m == "" then ""
    else (if m[0] == BACKSLASH || m[0] == QUOTE then [BACKSLASH, m[0]] else [m[0]]) + Escaped(m[1..])
  }

  /** After the first unescaping replace only the quotes are still escaped. */
  function HalfEscaped(m: string): string {
    if m == "" then "" else (if m[0] == QUOTE then [BACKSLASH, QUOTE] else [m[0]]) + HalfEscaped(m[1..])
  }

  function Doubled(m: string): string {
    if m == "" then "" else (if m[0] == BACKSLASH then [BACKSLASH, BACKSLASH] else [m[0]]) + Doubled(m[1..])
  }

  /** A character that starts no occurrence is copied. */
  lemma CopiesOne(c: char, s: string, p: char, replacement: string)
    requires c != p
    ensures Replace([c] + s, [p], replacement) == [c] + Replace(s, [p], replacement)
  {
    assert ([c] + s)[0] == c && ([c] + s)[1..] == s;
  }

  lemma CopiesPair(c: char, s: string, p: char, q: char, replacement: string)
    requires c != p || s == "" || s[0] != q
    ensures Replace([c] + s, [p, q], replacement) == [c] + Replace(s, [p, q], replacement)
  {
    var t := [c] + s;
    assert t[0] == c && t[1..] == s;
    if s != "" { assert t[1] == s[0]; assert !([p, q] <= t); } else { assert t == [c]; }
  }

  /** An occurrence at the start is replaced. */
  lemma ReplaceHits(s: string, pattern: string, replacement: string)
    requires pattern != ""
    ensures Replace(pattern + s, pattern, replacement) == replacement + Replace(s, pattern, replacement)
  {
    assert (pattern + s)[|pattern|..] == s;
  }

  lemma EscapeBackslash(rest: string)
    ensures Replace([BACKSLASH, BACKSLASH] + rest, [QUOTE], [BACKSLASH, QUOTE]) ==
            [BACKSLASH, BACKSLASH] + Replace(rest, [QUOTE], [BACKSLASH, QUOTE])
  {
    assert [BACKSLASH, BACKSLASH] + rest == [BACKSLASH] + ([BACKSLASH] + rest);
    CopiesOne(BACKSLASH, [BACKSLASH] + rest, QUOTE, [BACKSLASH, QUOTE]);
    CopiesOne(BACKSLASH, rest, QUOTE, [BACKSLASH, QUOTE]);
  }

  lemma KeepEscapedQuote(rest: string)
    ensures Replace([BACKSLASH, QUOTE] + rest, [BACKSLASH, BACKSLASH], [BACKSLASH]) ==
            [BACKSLASH, QUOTE] + Replace(rest, [BACKSLASH, BACKSLASH], [BACKSLASH])
  {
    assert [BACKSLASH, QUOTE] + rest == [BACKSLASH] + ([QUOTE] + rest);
    CopiesPair(BACKSLASH, [QUOTE] + rest, BACKSLASH, BACKSLASH, [BACKSLASH]);
    CopiesPair(QUOTE, rest, BACKSLASH, BACKSLASH, [BACKSLASH]);
  }

  lemma {:induction false} ReplaceDoubles(m: string)
    ensures Replace(m, [BACKSLASH], [BACKSLASH, BACKSLASH]) == Doubled(m)
  {
    if m != "" {
      ReplaceDoubles(m[1..]);
      assert m == [m[0]] + m[1..];
      if m[0] == BACKSLASH { ReplaceHits(m[1..], [BACKSLASH], [BACKSLASH, BACKSLASH]); }
      else { CopiesOne(m[0], m[1..], BACKSLASH, [BACKSLASH, BACKSLASH]); }
    }
  }

  lemma {:induction false} ReplaceEscapes(m: string)
    ensures Replace(Doubled(m), [QUOTE], [BACKSLASH, QUOTE]) == Escaped(m)
  {
    if m != "" {
      ReplaceEscapes(m[1..]);
      var rest := Doubled(m[1..]);
      if m[0] == BACKSLASH {
        EscapeBackslash(rest);
      } else if m[0] == QUOTE {
        ReplaceHits(rest, [QUOTE], [BACKSLASH, QUOTE]);
      } else {
        CopiesOne(m[0], rest, QUOTE, [BACKSLASH, QUOTE]);
      }
    }
  }

  /** The first replace sees the pairs it should: a backslash that starts a pair is never taken
      together with the end of the pair before it. */
  lemma {:induction false} FirstUnescape(m: string)
    ensures Replace(Escaped(m), [BACKSLASH, BACKSLASH], [BACKSLASH]) == HalfEscaped(m)
  {
    if m != "" {
      FirstUnescape(m[1..]);
      var rest := Escaped(m[1..]);
      if m[0] == BACKSLASH {
        ReplaceHits(rest, [BACKSLASH, BACKSLASH], [BACKSLASH]);
      } else if m[0] == QUOTE {
        KeepEscapedQuote(rest);
      } else {
        CopiesPair(m[0], rest, BACKSLASH, BACKSLASH, [BACKSLASH]);
      }
    }
  }

  /** The second replace cannot be misled by a backslash of the name itself. */
  lemma {:induction false} SecondUnescape(m: string)
    ensures Replace(HalfEscaped(m), [BACKSLASH, QUOTE], [QUOTE]) == m
  {
    if m != "" {
      SecondUnescape(m[1..]);
      var rest := HalfEscaped(m[1..]);
      assert m == [m[0]] + m[1..];
      if m[0] == QUOTE {
        ReplaceHits(rest, [BACKSLASH, QUOTE], [QUOTE]);
      } else {
        assert rest != "" ==> rest[0] != QUOTE;
        CopiesPair(m[0], rest, BACKSLASH, QUOTE, [QUOTE]);
      }
    }
  }

  lemma QuotedForm(m: string)
    ensures QuoteMailbox(m) == [QUOTE] + Escaped(m) + [QUOTE]
  {
    ReplaceDoubles(m);
    ReplaceEscapes(m);
  }

  /** Every mailbox name survives quoting and parsing. */
  lemma QuoteRoundTrip(m: string)
    ensures ParseAtom(QuoteMailbox(m)) == m
  {
    QuotedForm(m);
    var q := QuoteMailbox(m);
    assert Strip(q) == q;
    assert q[1..|q| - 1] == Escaped(m);
    FirstUnescape(m);
    SecondUnescape(m);
  }

  // ---------------------------------------------------------------- the first token of a line

  /** Index of the quote that closes a quoted token, or |s| when there is none. */
  function Closing(s: string, i: nat, escaped: bool): (k: nat)
    requires i <= |s|
    ensures i <= k <= |s|
    decreases |s| - i
  {
    if i == |s| then i
    else if s[i] == BACKSLASH && !escaped then Closing(s, i + 1, true)
    else if s[i] == QUOTE && !escaped then i
    else Closing(s, i + 1, false)
  }

  /** Position of the first space, or |s|. */
  function FirstSpace(s: string): (k: nat)
    ensures k <= |s|
  {
    if s == "" || s[0] == ' ' then 0 else 1 + FirstSpace(s[1..])
  }

  function FirstToken(payload: string): (string, string) { TokenOf(Strip(payload)) }

  /** The token of a stripped text, and the rest. */
  function TokenOf(p: string): (string, string) {
    if p == "" then ("", "")
    else if p[0] != QUOTE then
      var k := FirstSpace(p);
      (Strip(p[..k]), if k == |p| then "" else Strip(p[k + 1..]))
    else
      var k := Closing(p, 1, false);
      if k == |p| then (p, "") else (p[..k + 1], Strip(p[k + 1..]))
  }

  method SplitFirstToken(payload: string) returns (token: string, remainder: string)
    ensures (token, remainder) == FirstToken(payload)
  {
    var p := Strip(payload);
    if p == "" { return "", ""; }
    if p[0] != QUOTE {
      var k := FirstSpace(p);
      return Strip(p[..k]), if k == |p| then "" else Strip(p[k + 1..]);
    }
    var escaped := false;
    for index := 1 to |p|
      invariant Closing(p, index, escaped) == Closing(p, 1, false)
    {
      if p[index] == BACKSLASH && !escaped {
        escaped := true;
        continue;
      }
      if p[index] == QUOTE && !escaped {
        return p[..index + 1], Strip(p[index + 1..]);
      }
      escaped := false;
    }
    return p, "";
  }

  /** The scan passes every escaped character of a printed name and stops at the closing quote. */
  lemma {:induction false} ClosingQuote(before: string, m: string, tail: string)
    ensures Closing(before + Escaped(m) + [QUOTE] + tail, |before|, false) == |before| + |Escaped(m)|
    decreases m
  {
    var s := before + Escaped(m) + [QUOTE] + tail;
    if m != "" {
      var head := if m[0] == BACKSLASH || m[0] == QUOTE then [BACKSLASH, m[0]] else [m[0]];
      ClosingQuote(before + head, m[1..], tail);
      assert s == before + head + Escaped(m[1..]) + [QUOTE] + tail;
      assert s[|before|] == head[0];
      if |head| == 2 { assert s[|before| + 1] == m[0]; }
    }
  }

  /** The token read from a printed name is that name, whatever follows it. */
  lemma TokenIsQuotedName(m: string, rest: string)
    ensures FirstToken(QuoteMailbox(m) + " " + rest) == (QuoteMailbox(m), Strip(rest))
  {
    var q, tail := QuoteMailbox(m), " " + rest;
    QuotedForm(m);
    assert q + " " + rest == q + tail;
    assert LStrip(q + tail) == q + tail;
    RStripSuffix(q, tail);
    var p := q + RStrip(tail);
    assert p == [QUOTE] + Escaped(m) + [QUOTE] + RStrip(tail);
    ClosingQuote([QUOTE], m, RStrip(tail));
    assert p[..|q|] == q && p[|q|..] == RStrip(tail);
    StripAfterRStrip(tail);
    LeadingSpace(rest);
  }

  // ---------------------------------------------------------------- names without quotes

  /** A name that can stand without quotes. */
  predicate IsAtom(w: string) { w != "" && NoSpace(w) && w[0] != QUOTE }

  /** Without quotes around it a value is read as it stands, without the white space around it. */
  lemma UnquotedValue(lead: string, v: string, trail: string)
    requires AllSpace(lead) && Trimmed(v) && AllSpace(trail)
    requires |v| < 2 || v[0] != QUOTE || v[|v| - 1] != QUOTE
    ensures ParseAtom(lead + v + trail) == v
  {
    StripCut(lead, v, trail);
  }

  lemma {:induction false} FirstSpaceAfter(w: string, rest: string)
    requires NoSpace(w)
    ensures FirstSpace(w + " " + rest) == |w| && FirstSpace(w) == |w|
  {
    if w == "" {
      assert w + " " + rest == " " + rest;
    } else {
      assert (w + " " + rest)[1..] == w[1..] + " " + rest;
      FirstSpaceAfter(w[1..], rest);
    }
  }

  lemma AtomCut(w: string, r: string)
    requires IsAtom(w)
    ensures TokenOf(w + " " + r) == (w, Strip(r)) && TokenOf(w) == (w, "")
  {
    var p := w + " " + r;
    StripCut("", w, "");
    assert "" + w + "" == w;
    FirstSpaceAfter(w, r);
    assert p[..|w|] == w && p[|w| + 1..] == r && w[..|w|] == w;
  }

  /** The token read from a name without quotes ends at the first space; what follows is the rest. */
  lemma TokenIsAtom(w: string, rest: string)
    requires IsAtom(w)
    ensures FirstToken(w + " " + rest) == (w, Strip(rest))
  {
    var tail := " " + rest;
    assert w + " " + rest == w + tail;
    assert LStrip(w + tail) == w + tail;
    RStripSuffix(w, tail);
    TailStripped(rest);
    if RStrip(tail) == "" {
      AtomCut(w, "");
      assert w + "" == w;
    } else {
      var r := RStrip(tail)[1..];
      assert w + RStrip(tail) == w + " " + r;
      AtomCut(w, r);
    }
  }

  /** A rest behind a space, stripped from the right. */
  lemma TailStripped(rest: string)
    ensures var t := RStrip(" " + rest);
            if t == "" then Strip(rest) == "" else t == " " + t[1..] && Strip(t[1..]) == Strip(rest)
  {
    var tail := " " + rest;
    StripAfterRStrip(tail);
    LeadingSpace(rest);
    RStripEnd(tail);
    if RStrip(tail) == "" { assert Strip("") == ""; } else { LeadingSpace(RStrip(tail)[1..]); }
  }

  lemma AtomAlone(w: string, lead: string, trail: string)
    requires IsAtom(w) && AllSpace(lead) && AllSpace(trail)
    ensures FirstToken(lead + w + trail) == (w, "")
  {
    StripCut(lead, w, trail);
    StripCut("", w, "");
    assert "" + w + "" == w;
    FirstSpaceAfter(w, "");
    assert w[..|w|] == w;
  }

  lemma {:induction false} NeverClosed(before: string, m: string)
    ensures Closing(before + Escaped(m), |before|, false) == |before| + |Escaped(m)|
    decreases m
  {
    var s := before + Escaped(m);
    if m != "" {
      var head := if m[0] == BACKSLASH || m[0] == QUOTE then [BACKSLASH, m[0]] else [m[0]];
      NeverClosed(before + head, m[1..]);
      assert s == before + head + Escaped(m[1..]);
      assert s[|before|] == head[0];
      if |head| == 2 { assert s[|before| + 1] == m[0]; }
    }
  }

  /** Without its closing quote a name is all there is, and a blank text has no token. */
  lemma NoTokenBehind(m: string, blank: string)
    requires AllSpace(blank) && Trimmed([QUOTE] + Escaped(m))
    ensures FirstToken([QUOTE] + Escaped(m)) == ([QUOTE] + Escaped(m), "")
    ensures FirstToken(blank) == ("", "")
  {
    var p := [QUOTE] + Escaped(m);
    assert "" + p + "" == p;
    StripCut("", p, "");
    NeverClosed([QUOTE], m);
    AllSpaceStrips(blank);
  }

  /** A name as a server prints it, in quotes or, where it may, without. */
  function Printed(name: string, quoted: bool): string { if quoted then QuoteMailbox(name) else name }

  predicate MayPrint(name: string, quoted: bool) { quoted || IsAtom(name) }

  lemma PrintedReads(name: string, quoted: bool, rest: string)
    requires MayPrint(name, quoted)
    ensures var p := Printed(name, quoted);
            && p != "" && Trimmed(p) && Strip(p) == p && ParseAtom(p) == name
            && FirstToken(p + " " + rest) == (p, Strip(rest)) && FirstToken(p) == (p, "")
  {
    var p := Printed(name, quoted);
    assert "" + p + "" == p;
    if quoted {
      QuotedForm(name);
      QuoteRoundTrip(name);
      TokenIsQuotedName(name, rest);
      QuotedAlone(name);
    } else {
      TokenIsAtom(name, rest);
      AtomAlone(name, "", "");
      UnquotedValue("", name, "");
    }
    StripCut("", p, "");
  }

  lemma QuotedAlone(m: string)
    ensures FirstToken(QuoteMailbox(m)) == (QuoteMailbox(m), "")
  {
    QuotedForm(m);
    var q := QuoteMailbox(m);
    assert "" + q + "" == q;
    StripCut("", q, "");
    ClosingQuote([QUOTE], m, "");
    assert [QUOTE] + Escaped(m) + [QUOTE] + "" == q;
    assert q[..|q|] == q && q[|q|..] == "";
  }

  // ---------------------------------------------------------------- LIST responses

  datatype ListEntry = ListEntry(flags: set<string>, delimiter: Option<string>, mailbox: string)

  function Find(s: string, c: char): (k: nat)
    ensures k <= |s| && (k < |s| ==> s[k] == c) && c !in s[..k]
  {
    if s == "" || s[0] == c then 0 else 1 + Find(s[1..], c)
  }

  function FoldAll(words: seq<string>, fold: string -> string): set<string> {
    set i | 0 <= i < |words| :: fold(words[i])
  }

  /** `fold` is casefold. Decoding as modified UTF-7 always falls back to the name itself, because the
      standard library has no codec of that name. */
  function ParseListEntry(entry: string, fold: string -> string): Option<ListEntry> {
    var decoded := Strip(entry);
    if decoded == "" || decoded[0] != '(' then None
    else
      var end := Find(decoded, ')');
      if end == |decoded| then None else ParseFields(decoded[1..end], decoded[end + 1..], fold)
  }

  /** The text between the parentheses, and what follows them. */
  function ParseFields(flagText: string, rest: string, fold: string -> string): Option<ListEntry> {
    var flags := FoldAll(Words(Strip(flagText)), fold);
    var (delimiterToken, mailboxToken) := FirstToken(Strip(rest));
    if delimiterToken == "" || mailboxToken == "" then None
    else
      var delimiter, mailbox := ParseAtom(delimiterToken), ParseAtom(mailboxToken);
      Some(ListEntry(flags, if UpperEquals(delimiter, "NIL") then None else Some(delimiter),
                     if UpperEquals(mailbox, "NIL") then "" else mailbox))
  }

  /** A LIST response (section 7.2.2 of RFC 3501) as a server prints it. */
  function PrintListEntry(flags: seq<string>, delimiter: string, mailbox: string): string {
    "(" + Join(flags) + ") " + delimiter + " " + mailbox
  }

  lemma {:induction false} JoinAvoids(words: seq<string>, c: char)
    requires c != ' ' && forall i :: 0 <= i < |words| ==> c !in words[i]
    ensures c !in Join(words)
  {
    if |words| > 1 { JoinAvoids(words[1..], c); }
  }

  lemma {:induction false} FindFirst(a: string, c: char, b: string)
    requires c !in a
    ensures Find(a + [c] + b, c) == |a|
  {
    if a == "" {
      assert a + [c] + b == [c] + b;
    } else {
      assert (a + [c] + b)[1..] == a[1..] + [c] + b;
      FindFirst(a[1..], c, b);
    }
  }

  lemma FieldsRoundTrip(flags: seq<string>, delimiter: string, dq: bool, mailbox: string, mq: bool,
                        fold: string -> string)
    requires Plain(flags) && MayPrint(delimiter, dq) && MayPrint(mailbox, mq)
    ensures ParseFields(Join(flags), " " + Printed(delimiter, dq) + " " + Printed(mailbox, mq), fold) ==
            Some(ListEntry(FoldAll(flags, fold), if UpperEquals(delimiter, "NIL") then None else Some(delimiter),
                           if UpperEquals(mailbox, "NIL") then "" else mailbox))
  {
    JoinStripped(flags);
    WordsOfJoin(flags);
    PrintedReads(delimiter, dq, Printed(mailbox, mq));
    PrintedReads(mailbox, mq, "");
    StripTail(Printed(delimiter, dq), Printed(mailbox, mq));
  }

  /** Parsing a printed entry, whichever of its names stand in quotes, gives back its flags, and its
      delimiter and mailbox exactly when they do not read NIL. */
  lemma ListEntryRoundTrip(flags: seq<string>, delimiter: string, dq: bool, mailbox: string, mq: bool,
                           fold: string -> string)
    requires Plain(flags) && forall i :: 0 <= i < |flags| ==> ')' !in flags[i]
    requires MayPrint(delimiter, dq) && MayPrint(mailbox, mq)
    ensures ParseListEntry(PrintListEntry(flags, Printed(delimiter, dq), Printed(mailbox, mq)), fold) ==
            Some(ListEntry(set i | 0 <= i < |flags| :: fold(flags[i]),
                           if UpperEquals(delimiter, "NIL") then None else Some(delimiter),
                           if UpperEquals(mailbox, "NIL") then "" else mailbox))
  {
    var qd, qm := Printed(delimiter, dq), Printed(mailbox, mq);
    PrintedReads(mailbox, mq, "");
    JoinAvoids(flags, ')');
    SamePrint(Join(flags), qd, qm);
    FieldsFound(Join(flags), " " + qd + " " + qm, fold);
    FieldsRoundTrip(flags, delimiter, dq, mailbox, mq, fold);
  }

  /** An entry is refused when it does not begin with a parenthesis, when none closes, and when fewer
      than two tokens follow. */
  lemma ListEntryRefused(entry: string, fold: string -> string)
    requires Strip(entry) == "" || Strip(entry)[0] != '(' || ')' !in Strip(entry)
    ensures ParseListEntry(entry, fold) == None
  {
    var decoded := Strip(entry);
    if ')' !in decoded && decoded != "" {
      var end := Find(decoded, ')');
      assert end < |decoded| ==> decoded[end] in decoded;
    }
  }

  lemma TooFewTokens(flagText: string, blank: string, name: string, quoted: bool, fold: string -> string)
    requires AllSpace(blank) && MayPrint(name, quoted)
    ensures ParseFields(flagText, blank, fold) == None
    ensures ParseFields(flagText, blank + Printed(name, quoted) + blank, fold) == None
  {
    PrintedReads(name, quoted, "");
    AllSpaceStrips(blank);
    StripCut(blank, Printed(name, quoted), blank);
  }

  lemma SamePrint(text: string, qd: string, qm: string)
    requires qm != "" && !IsSpace(qm[|qm| - 1])
    ensures var tail := " " + qd + " " + qm;
            && "(" + text + ") " + qd + " " + qm == "(" + text + [')'] + tail
            && tail != "" && !IsSpace(tail[|tail| - 1])
  {
    var tail := " " + qd + " " + qm;
    assert tail[|tail| - 1] == qm[|qm| - 1];
  }

  /** The first closing parenthesis ends the flags. */
  lemma FieldsFound(text: string, tail: string, fold: string -> string)
    requires ')' !in text && tail != "" && !IsSpace(tail[|tail| - 1])
    ensures ParseListEntry("(" + text + [')'] + tail, fold) == ParseFields(text, tail, fold)
  {
    var s := "(" + text + [')'] + tail;
    assert s[|s| - 1] == tail[|tail| - 1];
    assert Strip(s) == s;
    FindFirst("(" + text, ')', tail);
    assert s[1..|text| + 1] == text && s[|text| + 2..] == tail;
  }

  lemma StripTail(qd: string, qm: string)
    requires qd != "" && qm != "" && !IsSpace(qd[0]) && !IsSpace(qm[|qm| - 1])
    ensures Strip(" " + qd + " " + qm) == qd + " " + qm
  {
    var t := qd + " " + qm;
    assert " " + qd + " " + qm == " " + t;
    LeadingSpace(t);
    assert t[|t| - 1] == qm[|qm| - 1];
  }
}
