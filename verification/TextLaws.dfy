/** Laws of stripping, splitting and joining that the parsers rely on. */
module TextLaws {
  import opened Text

  lemma {:induction false} RStripSuffix(a: string, b: string)
    requires a != "" && !IsSpace(a[|a| - 1])
    ensures RStrip(a + b) == a + RStrip(b)
  {
    if b == "" {
      assert a + b == a;
    } else {
      assert (a + b)[..|a + b| - 1] == a + b[..|b| - 1];
      if IsSpace(b[|b| - 1]) { RStripSuffix(a, b[..|b| - 1]); }
    }
  }

  lemma {:induction false} RStripEnd(s: string)
    ensures RStrip(s) <= s && (RStrip(s) != "" ==> !IsSpace(RStrip(s)[|RStrip(s)| - 1]))
    ensures forall i :: |RStrip(s)| <= i < |s| ==> IsSpace(s[i])
  {
    if s != "" && IsSpace(s[|s| - 1]) { RStripEnd(s[..|s| - 1]); }
  }

  lemma {:induction false} AllSpaceStrips(s: string)
    requires AllSpace(s)
    ensures LStrip(s) == "" && RStrip(s) == ""
  {
    if s != "" { AllSpaceLeft(s); AllSpaceRight(s); }
  }

  lemma {:induction false} AllSpaceLeft(s: string)
    requires AllSpace(s)
    ensures LStrip(s) == ""
  {
    if s != "" { AllSpaceLeft(s[1..]); }
  }

  lemma {:induction false} AllSpaceRight(s: string)
    requires AllSpace(s)
    ensures RStrip(s) == ""
  {
    if s != "" { AllSpaceRight(s[..|s| - 1]); }
  }

  /** Stripping the right end first makes no difference to strip. */
  lemma {:induction false} StripAfterRStrip(s: string)
    ensures Strip(RStrip(s)) == Strip(s)
  {
    RStripEnd(s);
    if s == "" {
    } else if RStrip(s) == "" {
      AllSpaceStrips(s);
    } else if IsSpace(s[0]) {
      var t := RStrip(s);
      assert s == t + s[|t|..];
      RStripTail(s);
      StripAfterRStrip(s[1..]);
    } else {
      assert LStrip(RStrip(s)) == RStrip(s);
      RStripTwice(s);
    }
  }

  lemma {:induction false} RStripTwice(s: string)
    ensures RStrip(RStrip(s)) == RStrip(s)
  {
    RStripEnd(s);
  }

  /** When something is left, stripping the right end commutes with dropping the first character. */
  lemma RStripTail(s: string)
    requires RStrip(s) != ""  && IsSpace(s[0])
    ensures RStrip(s)[1..] == RStrip(s[1..]) && RStrip(s)[0] == s[0]
  {
    RStripEnd(s);
    var t := RStrip(s);
    assert |t| > 1;
    var rest := s[|t|..];
    assert s == t + rest && s[1..] == t[1..] + rest;
    AllSpaceRight(rest);
    RStripSuffix(t[1..], rest);
  }

  /** Of the ASCII characters the blank, the tab, the line ends and the four separators are white space;
      no letter, digit or sign is. */
  lemma AsciiSpaces(c: char)
    requires c as int < 128
    ensures IsSpace(c) <==> c == ' ' || c == '\t' || c == '\n' || c == '\r' || c as int in {11, 12, 28, 29, 30, 31}
    ensures '!' <= c <= '~' ==> !IsSpace(c)
  {
  }

  /** Neither begins nor ends with white space. */
  predicate Trimmed(s: string) { s == "" || (!IsSpace(s[0]) && !IsSpace(s[|s| - 1])) }

  lemma {:induction false} LStripCut(lead: string, rest: string)
    requires AllSpace(lead) && (rest == "" || !IsSpace(rest[0]))
    ensures LStrip(lead + rest) == rest
  {
    if lead == "" {
      assert lead + rest == rest;
    } else {
      assert (lead + rest)[1..] == lead[1..] + rest;
      LStripCut(lead[1..], rest);
    }
  }

  /** strip() takes off the white space at both ends and nothing else. */
  lemma StripCut(lead: string, v: string, trail: string)
    requires AllSpace(lead) && Trimmed(v) && AllSpace(trail)
    ensures Strip(lead + v + trail) == v
  {
    if v == "" {
      assert lead + v + trail == lead + trail;
      AllSpaceStrips(lead + trail);
    } else {
      assert lead + v + trail == lead + (v + trail);
      LStripCut(lead, v + trail);
      AllSpaceStrips(trail);
      RStripSuffix(v, trail);
    }
  }

  lemma StripTrims(s: string)
    ensures Trimmed(Strip(s))
  {
    LStripShorter(s);
    RStripEnd(LStrip(s));
  }

  /** Comparing in upper case ignores the case of letters, and takes the dotless i for an I. */
  lemma UpperIgnoresCase(s: string, word: string)
    requires forall i :: 0 <= i < |word| ==> 'A' <= word[i] <= 'Z'
    ensures UpperEquals(s, word) <==>
            |s| == |word| && forall i :: 0 <= i < |s| ==> s[i] == word[i] || Lowered(s[i], word[i])
  {
  }

  predicate Lowered(c: char, letter: char) {
    c as int == letter as int + 32 || (letter == 'I' && c as int == 305)
  }

  /** str(n) has no superfluous zeros. */
  lemma {:induction false} DecimalPlain(n: nat)
    ensures Decimal(n)[0] == '0' <==> n == 0
    ensures n < 10 ==> |Decimal(n)| == 1
  {
    if n >= 10 { DecimalPlain(n / 10); }
  }

  lemma {:induction false} WordThenSpace(w: string, rest: string)
    requires NoSpace(w)
    ensures Word(w + " " + rest) == w
  {
    if w == "" {
    } else {
      assert (w + " " + rest)[1..] == w[1..] + " " + rest;
      WordThenSpace(w[1..], rest);
    }
  }

  lemma {:induction false} WordAlone(w: string)
    requires NoSpace(w)
    ensures Word(w) == w
  {
    if w != "" { WordAlone(w[1..]); }
  }

  /** " ".join(words). */
  function Join(words: seq<string>): string {
    if words == [] then "" else if |words| == 1 then words[0] else words[0] + " " + Join(words[1..])
  }

  predicate Plain(words: seq<string>) {
    forall i :: 0 <= i < |words| ==> words[i] != "" && NoSpace(words[i])
  }

  lemma {:induction false} JoinEnds(words: seq<string>)
    requires Plain(words) && words != []
    ensures Join(words) != "" && !IsSpace(Join(words)[0]) && !IsSpace(Join(words)[|Join(words)| - 1])
  {
    if |words| > 1 { JoinEnds(words[1..]); }
  }

  lemma JoinStripped(words: seq<string>)
    requires Plain(words)
    ensures Strip(Join(words)) == Join(words)
  {
    if words != [] { JoinEnds(words); }
  }

  /** split() undoes join for words without white space. */
  lemma {:induction false} WordsOfJoin(words: seq<string>)
    requires Plain(words)
    ensures Words(Join(words)) == words
  {
    if words == [] {
    } else {
      JoinEnds(words);
      var s := Join(words);
      assert LStrip(s) == s;
      if |words| == 1 {
        WordAlone(words[0]);
        assert s[|words[0]|..] == "";
      } else {
        WordThenSpace(words[0], Join(words[1..]));
        assert s[|words[0]|..] == " " + Join(words[1..]);
        LeadingSpace(Join(words[1..]));
        WordsOfJoin(words[1..]);
      }
    }
  }

  lemma LeadingSpace(s: string)
    ensures LStrip(" " + s) == LStrip(s) && Words(" " + s) == Words(s)
  {
    assert (" " + s)[1..] == s;
  }

  /** s.split(sep) for a one-character separator. */
  function SplitOn(s: string, sep: char): seq<string>
    ensures |SplitOn(s, sep)| > 0
  {
    if s == "" then [""]
    else
      var rest := SplitOn(s[1..], sep);
      if s[0] == sep then [""] + rest else [[s[0]] + rest[0]] + rest[1..]
  }

  function NonEmpty(parts: seq<string>): seq<string> {
    if parts == [] then [] else if parts[0] == "" then NonEmpty(parts[1..]) else [parts[0]] + NonEmpty(parts[1..])
  }

  lemma {:induction false} SplitOnPlain(w: string, sep: char)
    requires sep !in w
    ensures SplitOn(w, sep) == [w]
  {
    if w != "" {
      SplitOnPlain(w[1..], sep);
      assert [w[0]] + w[1..] == w;
    }
  }

  lemma {:induction false} SplitOnCut(w: string, sep: char, rest: string)
    requires sep !in w
    ensures SplitOn(w + [sep] + rest, sep) == [w] + SplitOn(rest, sep)
  {
    if w == "" {
      assert w + [sep] + rest == [sep] + rest;
    } else {
      assert (w + [sep] + rest)[1..] == w[1..] + [sep] + rest;
      SplitOnCut(w[1..], sep, rest);
      assert [w[0]] + w[1..] == w;
    }
  }

  lemma {:induction false} SplitOnJoin(words: seq<string>)
    requires Plain(words) && words != []
    ensures NonEmpty(SplitOn(Join(words), ' ')) == words
  {
    forall i | 0 <= i < |words[0]| ensures words[0][i] != ' ' { assert !IsSpace(words[0][i]); }
    if |words| == 1 {
      SplitOnPlain(words[0], ' ');
      assert NonEmpty([words[0]]) == [words[0]] + NonEmpty([]);
    } else {
      SplitOnCut(words[0], ' ', Join(words[1..]));
      assert words[0] + [' '] + Join(words[1..]) == Join(words);
      var tail := SplitOn(Join(words[1..]), ' ');
      assert ([words[0]] + tail)[1..] == tail;
      SplitOnJoin(words[1..]);
    }
  }

  // ---------------------------------------------------------------- sorting

  predicate Sorted(ids: seq<string>) { forall i, j :: 0 <= i < j < |ids| ==> LexLe(ids[i], ids[j]) }

  function Insert(ids: seq<string>, id: string): seq<string> {
    if ids == [] || LexLe(id, ids[0]) then [id] + ids else [ids[0]] + Insert(ids[1..], id)
  }

  /** sorted(strings). */
  function SortStrings(ids: seq<string>): seq<string> {
    if ids == [] then [] else Insert(SortStrings(ids[1..]), ids[0])
  }

  lemma {:induction false} InsertKeeps(ids: seq<string>, id: string)
    ensures multiset(Insert(ids, id)) == multiset(ids) + multiset{id}
  {
    if ids == [] || LexLe(id, ids[0]) {
    } else {
      InsertKeeps(ids[1..], id);
      assert ids == [ids[0]] + ids[1..];
    }
  }

  lemma {:induction false} InsertSorts(ids: seq<string>, id: string)
    requires Sorted(ids)
    ensures Sorted(Insert(ids, id))
  {
    if ids == [] {
    } else if LexLe(id, ids[0]) {
      forall j | 0 <= j < |ids| ensures LexLe(id, ids[j]) {
        LexReflexive(ids[0]);
        LexTransitive(id, ids[0], ids[j]);
      }
    } else {
      LexTotal(id, ids[0]);
      InsertSorts(ids[1..], id);
      InsertKeeps(ids[1..], id);
      var rest := Insert(ids[1..], id);
      forall j | 0 <= j < |rest| ensures LexLe(ids[0], rest[j]) {
        assert rest[j] in multiset(rest);
      }
    }
  }

  lemma {:induction false} SortStringsSorts(ids: seq<string>)
    ensures Sorted(SortStrings(ids)) && multiset(SortStrings(ids)) == multiset(ids)
  {
    if ids == [] {
    } else {
      SortStringsSorts(ids[1..]);
      InsertSorts(SortStrings(ids[1..]), ids[0]);
      InsertKeeps(SortStrings(ids[1..]), ids[0]);
      assert ids == [ids[0]] + ids[1..];
    }
  }

  /** Sorted arrangements of the same strings start with the same one. */
  lemma SameLeast(a: seq<string>, b: seq<string>)
    requires Sorted(a) && Sorted(b) && a != [] && b != [] && multiset(a) == multiset(b)
    ensures a[0] == b[0]
  {
    HeadIsLeast(a, b[0]);
    HeadIsLeast(b, a[0]);
    LexTotal(a[0], b[0]);
  }

  lemma HeadIsLeast(a: seq<string>, x: string)
    requires Sorted(a) && a != [] && x in multiset(a)
    ensures LexLe(a[0], x)
  {
    var j :| 0 <= j < |a| && a[j] == x;
    LexReflexive(a[0]);
  }

  lemma SameRest(x: string, a: seq<string>, b: seq<string>)
    requires multiset([x] + a) == multiset([x] + b)
    ensures multiset(a) == multiset(b)
  {
    assert multiset(a) == multiset([x] + a) - multiset{x};
    assert multiset(b) == multiset([x] + b) - multiset{x};
  }

  /** There is only one way to sort. */
  lemma {:induction false} SortedOnce(a: seq<string>, b: seq<string>)
    requires Sorted(a) && Sorted(b) && multiset(a) == multiset(b)
    ensures a == b
  {
    assert |a| == |multiset(a)| == |multiset(b)| == |b|;
    if a != [] {
      SameLeast(a, b);
      assert a == [a[0]] + a[1..] && b == [a[0]] + b[1..];
      SameRest(a[0], a[1..], b[1..]);
      SortedOnce(a[1..], b[1..]);
    }
  }
}
