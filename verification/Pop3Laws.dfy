/** What the lines of POP3 listings mean, whatever else the server puts in them. */
module Pop3Laws {
  import opened Cursors
  import opened Text
  import opened TextLaws
  import opened Pop3Source

  // ---------------------------------------------------------------- one line

  /** The line is this first word, then white space, then the rest, with blanks before the word. */
  predicate CutsInto(line: string, lead: string, word: string, gap: string, rest: string) {
    && line == lead + word + gap + rest && AllSpace(lead) && word != "" && NoSpace(word)
    && gap != "" && AllSpace(gap) && rest != "" && !IsSpace(rest[0])
  }

  lemma {:induction false} WordCut(word: string, rest: string)
    requires NoSpace(word) && (rest == "" || IsSpace(rest[0]))
    ensures Word(word + rest) == word
  {
    if word == "" {
      assert word + rest == rest;
    } else {
      assert (word + rest)[1..] == word[1..] + rest;
      WordCut(word[1..], rest);
    }
  }

  lemma {:induction false} LStripSplits(s: string)
    ensures |LStrip(s)| <= |s| && s == s[..|s| - |LStrip(s)|] + LStrip(s) && AllSpace(s[..|s| - |LStrip(s)|])
  {
    if s != "" && IsSpace(s[0]) {
      LStripSplits(s[1..]);
      var n := |s| - |LStrip(s)|;
      assert s[..n] == [s[0]] + s[1..][..n - 1];
    }
  }

  lemma CutIsSplit(line: string, lead: string, word: string, gap: string, rest: string)
    requires CutsInto(line, lead, word, gap, rest)
    ensures SplitOnce(line) == Some((word, rest))
  {
    var t := word + gap + rest;
    assert line == lead + t;
    LStripCut(lead, t);
    assert t == word + (gap + rest);
    WordCut(word, gap + rest);
    assert t[|word|..] == gap + rest;
    LStripCut(gap, rest);
  }

  lemma LeadOf(s: string) returns (lead: string)
    ensures s == lead + LStrip(s) && AllSpace(lead) && (LStrip(s) != "" ==> !IsSpace(LStrip(s)[0]))
  {
    LStripShorter(s);
    LStripSplits(s);
    lead := s[..|s| - |LStrip(s)|];
  }

  lemma SplitIsCut(line: string) returns (lead: string, gap: string)
    requires SplitOnce(line).Some?
    ensures var (word, rest) := SplitOnce(line).value; CutsInto(line, lead, word, gap, rest)
  {
    lead := LeadOf(line);
    var t := LStrip(line);
    var tail := t[|Word(t)|..];
    gap := LeadOf(tail);
    assert t == Word(t) + tail;
    Reassociate(line, lead, Word(t), gap, LStrip(tail));
  }

  lemma Reassociate(line: string, lead: string, word: string, gap: string, rest: string)
    requires line == lead + (word + (gap + rest))
    ensures line == lead + word + gap + rest
  {
  }

  /** Splitting a line once takes its first word and what comes after the white space behind it. */
  lemma SplitOnceExactly(line: string, word: string, rest: string)
    ensures SplitOnce(line) == Some((word, rest)) <==> exists lead, gap :: CutsInto(line, lead, word, gap, rest)
  {
    if SplitOnce(line) == Some((word, rest)) {
      var lead, gap := SplitIsCut(line);
      assert CutsInto(line, lead, word, gap, rest);
    }
    if lead, gap :| CutsInto(line, lead, word, gap, rest) { CutIsSplit(line, lead, word, gap, rest); }
  }

  // ---------------------------------------------------------------- the UIDL answer

  /** The line gives message n this unique-id. */
  ghost predicate Gives(line: string, n: nat, id: string) {
    exists lead, word, gap :: CutsInto(line, lead, word, gap, id) && AllDigits(word) && Value(word) == n
  }

  /** Line k gives message n its unique-id, and no later line gives it one. */
  ghost predicate GivesLast(lines: seq<string>, n: nat, id: string, k: nat) {
    k < |lines| && Gives(lines[k], n, id) && forall l, other :: k < l < |lines| ==> !Gives(lines[l], n, other)
  }

  lemma GivesExactly(line: string, n: nat, id: string)
    ensures Gives(line, n, id) <==>
            SplitOnce(line).Some? && AllDigits(SplitOnce(line).value.0) && Value(SplitOnce(line).value.0) == n
            && SplitOnce(line).value.1 == id
  {
    if lead, word, gap :| CutsInto(line, lead, word, gap, id) && AllDigits(word) && Value(word) == n {
      CutIsSplit(line, lead, word, gap, id);
    }
    if SplitOnce(line).Some? { var lead, gap := SplitIsCut(line); }
  }

  /** The lookup holds for each message the unique-id of the last line that gives it one, and nothing for a
      message to which no line gives one. */
  lemma {:induction false} LookupExactly(lines: seq<string>, n: nat, id: string)
    ensures n in UidLookup(lines) && UidLookup(lines)[n] == id <==> exists k: nat :: GivesLast(lines, n, id, k)
  {
    if lines != [] {
      var front, m := lines[..|lines| - 1], |lines| - 1;
      var parts := SplitOnce(lines[m]);
      LookupExactly(front, n, id);
      GivesExactly(lines[m], n, id);
      forall other ensures Gives(lines[m], n, other) ==>
          parts.Some? && AllDigits(parts.value.0) && Value(parts.value.0) == n && parts.value.1 == other
      {
        GivesExactly(lines[m], n, other);
      }
      if Gives(lines[m], n, id) {
        assert GivesLast(lines, n, id, m);
      } else if parts.Some? && AllDigits(parts.value.0) && Value(parts.value.0) == n {
        GivesExactly(lines[m], n, parts.value.1);
        OverriddenByLast(lines, n, id, parts.value.1);
      } else {
        NotInLast(front, lines[m], lines, n, id);
      }
    }
  }

  lemma OverriddenByLast(lines: seq<string>, n: nat, id: string, other: string)
    requires lines != [] && Gives(lines[|lines| - 1], n, other) && !Gives(lines[|lines| - 1], n, id)
    ensures forall k: nat :: !GivesLast(lines, n, id, k)
  {
  }

  lemma NotInLast(front: seq<string>, line: string, lines: seq<string>, n: nat, id: string)
    requires lines == front + [line] && forall other :: !Gives(line, n, other)
    ensures (exists k: nat :: GivesLast(lines, n, id, k)) <==> exists k: nat :: GivesLast(front, n, id, k)
  {
    forall k: nat ensures GivesLast(lines, n, id, k) <==> GivesLast(front, n, id, k) {
      if k < |front| {
        assert front[k] == lines[k];
        if GivesLast(front, n, id, k) {
          forall l, other | k < l < |lines| ensures !Gives(lines[l], n, other) {
            if l < |front| { assert front[l] == lines[l]; }
          }
        }
        if GivesLast(lines, n, id, k) {
          forall l, other | k < l < |front| ensures !Gives(front[l], n, other) { assert front[l] == lines[l]; }
        }
      }
    }
  }

  // ---------------------------------------------------------------- the LIST answer

  /** The line is these blanks, then this first word, the number of message n, and whatever follows. */
  predicate NumberedBy(line: string, n: nat, lead: string, word: string, tail: string) {
    && line == lead + word + tail && AllSpace(lead) && AllDigits(word) && Value(word) == n
    && (tail == "" || IsSpace(tail[0]))
  }

  ghost predicate Numbers(line: string, n: nat) { exists lead, word, tail :: NumberedBy(line, n, lead, word, tail) }

  lemma DigitsNoSpace(word: string)
    requires AllDigits(word)
    ensures NoSpace(word)
  {
    forall i | 0 <= i < |word| ensures !IsSpace(word[i]) { assert IsDigit(word[i]); }
  }

  lemma NumberedByWords(line: string, n: nat, lead: string, word: string, tail: string)
    requires NumberedBy(line, n, lead, word, tail)
    ensures Words(line) != [] && Words(line)[0] == word
  {
    DigitsNoSpace(word);
    assert line == lead + (word + tail);
    LStripCut(lead, word + tail);
    WordCut(word, tail);
  }

  lemma WordsNumber(line: string)
    requires Words(line) != [] && AllDigits(Words(line)[0])
    ensures Numbers(line, Value(Words(line)[0]))
  {
    var t := LStrip(line);
    LStripSplits(line);
    LStripShorter(line);
    var lead, word, tail := line[..|line| - |t|], Word(t), t[|Word(t)|..];
    assert t == word + tail;
    assert line == lead + word + tail;
    assert NumberedBy(line, Value(word), lead, word, tail);
  }

  lemma NumbersExactly(line: string, n: nat)
    ensures Numbers(line, n) <==> Words(line) != [] && AllDigits(Words(line)[0]) && Value(Words(line)[0]) == n
  {
    if lead, word, tail :| NumberedBy(line, n, lead, word, tail) { NumberedByWords(line, n, lead, word, tail); }
    if Words(line) != [] && AllDigits(Words(line)[0]) { WordsNumber(line); }
  }

  /** Each LIST line that begins with a message number is one entry, known by its unique-id or else by its
      number; every other line is none; and the entries stand in the order of their lines. */
  lemma {:induction false} ListedExactly(lines: seq<string>, lookup: map<nat, string>)
    ensures forall n: nat :: |lines| == 1 && Numbers(lines[0], n) ==>
              Listed(lines, lookup) == [Entry(n, if n in lookup then lookup[n] else Decimal(n))]
    ensures |lines| == 1 && (forall n: nat :: !Numbers(lines[0], n)) ==> Listed(lines, lookup) == []
    ensures forall k :: 0 <= k <= |lines| ==>
              Listed(lines, lookup) == Listed(lines[..k], lookup) + Listed(lines[k..], lookup)
  {
    if |lines| == 1 {
      assert lines[..0] == [];
      forall n: nat ensures Numbers(lines[0], n) <==>
          Words(lines[0]) != [] && AllDigits(Words(lines[0])[0]) && Value(Words(lines[0])[0]) == n
      {
        NumbersExactly(lines[0], n);
      }
      var words := Words(lines[0]);
      if words != [] && AllDigits(words[0]) { assert Numbers(lines[0], Value(words[0])); }
    }
    forall k | 0 <= k <= |lines|
      ensures Listed(lines, lookup) == Listed(lines[..k], lookup) + Listed(lines[k..], lookup)
    {
      ListedBoth(lines[..k], lines[k..], lookup);
      assert lines == lines[..k] + lines[k..];
    }
  }

  lemma {:induction false} ListedBoth(xs: seq<string>, ys: seq<string>, lookup: map<nat, string>)
    ensures Listed(xs + ys, lookup) == Listed(xs, lookup) + Listed(ys, lookup)
  {
    if ys == [] {
      assert xs + ys == xs;
    } else {
      var front := ys[..|ys| - 1];
      assert (xs + ys)[..|xs + ys| - 1] == xs + front;
      ListedBoth(xs, front, lookup);
    }
  }
}
