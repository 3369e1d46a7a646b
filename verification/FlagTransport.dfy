/** Message flags cross from source to destination as one metadata string. */
module FlagTransport {
  import opened Cursors
  import opened Text
  import opened TextLaws

  function Elements(words: seq<string>): set<string> { set i | 0 <= i < |words| :: words[i] }

  /** " ".join(sorted(flags)) as iter_items writes it: flags listed once each, in any order, sorted. */
  function PrintFlags(listed: seq<string>): string { Join(SortStrings(listed)) }

  /** What upsert_item reads back; None when there is no flag text. */
  function ParseFlags(metadata: Option<string>): Option<set<string>> {
    var raw := Strip(if metadata.Some? then metadata.value else "");
    if raw == "" then None else Some(Elements(NonEmpty(SplitOn(raw, ' '))))
  }

  lemma {:induction false} SortedKeepsPlain(listed: seq<string>)
    requires Plain(listed)
    ensures Plain(SortStrings(listed)) && Elements(SortStrings(listed)) == Elements(listed)
    ensures |SortStrings(listed)| == |listed|
  {
    var sorted := SortStrings(listed);
    SortStringsSorts(listed);
    assert |sorted| == |multiset(sorted)| == |listed|;
    forall i | 0 <= i < |sorted| ensures sorted[i] != "" && NoSpace(sorted[i]) && sorted[i] in Elements(listed) {
      assert sorted[i] in multiset(listed);
    }
    forall i | 0 <= i < |listed| ensures listed[i] in Elements(sorted) {
      assert listed[i] in multiset(sorted);
    }
  }

  /** A set of flags without white space arrives unchanged; an empty one, for which nothing is
      written, arrives as none. */
  lemma FlagsSurvive(listed: seq<string>)
    requires Plain(listed)
    ensures listed != [] ==> ParseFlags(Some(PrintFlags(listed))) == Some(set i | 0 <= i < |listed| :: listed[i])
    ensures listed == [] ==> ParseFlags(None) == None
  {
    if listed != [] {
      SortedKeepsPlain(listed);
      var sorted := SortStrings(listed);
      JoinEnds(sorted);
      JoinStripped(sorted);
      SplitOnJoin(sorted);
    }
  }

  /** The text written depends on the flags alone, not on the order in which they are listed. */
  lemma PrintIgnoresOrder(a: seq<string>, b: seq<string>)
    requires multiset(a) == multiset(b)
    ensures PrintFlags(a) == PrintFlags(b)
  {
    SortStringsSorts(a);
    SortStringsSorts(b);
    SortedOnce(SortStrings(a), SortStrings(b));
  }

  /** A blank flag text, like a missing one, means no flags; blanks around a text do not matter. */
  lemma BlanksDoNotCount(lead: string, text: string, trail: string)
    requires AllSpace(lead) && Trimmed(text) && AllSpace(trail)
    ensures text == "" ==> ParseFlags(Some(lead + text + trail)) == None == ParseFlags(None)
    ensures text != "" ==> ParseFlags(Some(lead + text + trail)) == ParseFlags(Some(text)) != None
  {
    StripCut(lead, text, trail);
    assert "" + text + "" == text;
    StripCut("", text, "");
  }
}
