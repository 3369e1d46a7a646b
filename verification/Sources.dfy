/** The three resumable sources. Each one, asked to resume after a cursor it yielded, gives exactly
    the items behind it, which is what the protocol assumes when it opens an iterator. */
module SourceFilter {
  import opened Cursors

  /** The subsequence of xs that satisfies p, in order. */
  function Keep(xs: seq<string>, p: string -> bool): seq<string> {
    if xs == [] then []
    else if p(xs[0]) then [xs[0]] + Keep(xs[1..], p)
    else Keep(xs[1..], p)
  }

  lemma {:induction false} KeepSnoc(xs: seq<string>, x: string, p: string -> bool)
    ensures Keep(xs + [x], p) == Keep(xs, p) + (if p(x) then [x] else [])
  {
    if xs == [] {
    } else {
      assert (xs + [x])[1..] == xs[1..] + [x];
      KeepSnoc(xs[1..], x, p);
    }
  }

  /** A filter that refuses a prefix and accepts the rest cuts off exactly that prefix. */
  lemma {:induction false} KeepSuffix(xs: seq<string>, p: string -> bool, n: nat)
    requires n <= |xs|
    requires forall k :: 0 <= k < n ==> !p(xs[k])
    requires forall k :: n <= k < |xs| ==> p(xs[k])
    ensures Keep(xs, p) == xs[n..]
  {
    if xs == [] {
    } else if n == 0 {
      KeepSuffix(xs[1..], p, 0);
    } else {
      KeepSuffix(xs[1..], p, n - 1);
    }
  }

  /** A filter that refuses a prefix and agrees with another one on the rest. */
  lemma {:induction false} KeepRest(xs: seq<string>, p: string -> bool, q: string -> bool, n: nat)
    requires n <= |xs|
    requires forall k :: 0 <= k < n ==> !p(xs[k])
    requires forall k :: n <= k < |xs| ==> p(xs[k]) == q(xs[k])
    ensures Keep(xs, p) == Keep(xs[n..], q)
  {
    if xs == [] {
    } else if n == 0 {
      KeepRest(xs[1..], p, q, 0);
      assert xs[0..] == xs;
    } else {
      KeepRest(xs[1..], p, q, n - 1);
      assert xs[1..][n - 1..] == xs[n..];
    }
  }

  lemma {:induction false} KeepConcat(xs: seq<string>, ys: seq<string>, p: string -> bool)
    ensures Keep(xs + ys, p) == Keep(xs, p) + Keep(ys, p)
  {
    if xs == [] {
      assert xs + ys == ys;
    } else {
      assert (xs + ys)[1..] == xs[1..] + ys;
      KeepConcat(xs[1..], ys, p);
    }
  }

  /** A filter keeps everything exactly when it accepts everything. */
  lemma {:induction false} KeepEverything(xs: seq<string>, p: string -> bool)
    ensures |Keep(xs, p)| <= |xs|
    ensures Keep(xs, p) == xs <==> forall k :: 0 <= k < |xs| ==> p(xs[k])
    ensures |Keep(xs, p)| == |xs| <==> Keep(xs, p) == xs
  {
    if xs != [] {
      KeepEverything(xs[1..], p);
      assert xs == [xs[0]] + xs[1..];
      assert (forall k :: 0 <= k < |xs| ==> p(xs[k])) <==> p(xs[0]) && forall k :: 0 <= k < |xs[1..]| ==>
          p(xs[1..][k]) by {
        if forall k :: 0 <= k < |xs| ==> p(xs[k]) { assert forall k :: 0 <= k < |xs[1..]| ==> p(xs[1..][k]); }
        if p(xs[0]) && forall k :: 0 <= k < |xs[1..]| ==> p(xs[1..][k]) {
          forall k | 0 <= k < |xs| ensures p(xs[k]) { if k > 0 { assert xs[k] == xs[1..][k - 1]; } }
        }
      }
    }
  }

  lemma {:induction false} KeepMember(xs: seq<string>, p: string -> bool, x: string)
    ensures x in Keep(xs, p) <==> x in xs && p(x)
  {
    if xs != [] {
      KeepMember(xs[1..], p, x);
      assert xs == [xs[0]] + xs[1..];
    }
  }

  /** What the program's `if resume_from` lets through: neither None nor the empty string. */
  predicate Given(resume: Option<string>) { resume.Some? && resume.value != "" }
}

module ImapSource {
  import opened Cursors
  import opened Text
  import opened SourceFilter

  predicate UidLte(a: string, b: string) {
    if AllDigits(a) && AllDigits(b) then Value(a) <= Value(b) else LexLe(a, b)
  }

  /** On digit strings the comparison is a total preorder. */
  lemma UidLteOrders(a: string, b: string, c: string)
    requires AllDigits(a) && AllDigits(b) && AllDigits(c)
    ensures UidLte(a, a) && (UidLte(a, b) || UidLte(b, a)) && (UidLte(a, b) && UidLte(b, c) ==> UidLte(a, c))
  {
  }

  /** On any strings it is reflexive and total, and transitive on three strings unless exactly one of
      them is not a number. */
  lemma UidLteMostlyOrders(a: string, b: string, c: string)
    ensures UidLte(a, a) && (UidLte(a, b) || UidLte(b, a))
    ensures NotNumber(a) + NotNumber(b) + NotNumber(c) != 1 ==> (UidLte(a, b) && UidLte(b, c) ==> UidLte(a, c))
  {
    LexReflexive(a);
    LexTotal(a, b);
    if LexLe(a, b) && LexLe(b, c) { LexTransitive(a, b, c); }
  }

  function NotNumber(uid: string): nat { if AllDigits(uid) then 0 else 1 }

  ghost predicate TransitiveOn(ids: set<string>) {
    forall a, b, c :: a in ids && b in ids && c in ids && UidLte(a, b) && UidLte(b, c) ==> UidLte(a, c)
  }

  /** As numbers p comes first, but as strings x, which is no number, stands between q and p. */
  predicate Twisted(p: string, q: string, x: string) {
    AllDigits(p) && AllDigits(q) && !AllDigits(x) && Value(p) <= Value(q) && LexLe(q, x) && LexLe(x, p)
  }

  /** Exactly when the comparison orders a set of ids: no string that is not a number stands between two
      numbers whose order as numbers and as strings disagree. */
  lemma UidLteTransitiveExactly(ids: set<string>)
    ensures TransitiveOn(ids) <==> forall p, q, x :: p in ids && q in ids && x in ids ==> !Twisted(p, q, x)
  {
    if TransitiveOn(ids) {
      forall p, q, x | p in ids && q in ids && x in ids ensures !Twisted(p, q, x) {
        if Twisted(p, q, x) {
          assert UidLte(p, q) && UidLte(q, x) && UidLte(p, x);
          LexTotal(p, x);
          assert false;
        }
      }
    } else {
      var a, b, c :| a in ids && b in ids && c in ids && UidLte(a, b) && UidLte(b, c) && !UidLte(a, c);
      FailureIsTwisted(a, b, c);
    }
  }

  lemma FailureIsTwisted(a: string, b: string, c: string)
    requires UidLte(a, b) && UidLte(b, c) && !UidLte(a, c)
    ensures Twisted(a, b, c) || Twisted(b, c, a) || Twisted(c, a, b)
  {
    UidLteMostlyOrders(a, b, c);
    LexTotal(a, c);
  }

  /** "9" and "10" disagree around "1a". */
  lemma UidLteNotTransitive()
    ensures UidLte("9", "10") && UidLte("10", "1a") && !UidLte("9", "1a")
  {
    assert Value("9") == 9 by { assert "9"[..0] == ""; }
    assert Value("10") == 10 by { assert "10"[..1] == "1"; assert "1"[..0] == ""; }
    assert "1a"[1] == 'a' && !IsDigit("1a"[1]);
    assert "10"[1..] == "0" && "1a"[1..] == "a";
  }

  predicate Skipped(uid: string, resume: Option<string>) { Given(resume) && UidLte(uid, resume.value) }

  /** One element of a FETCH answer: a pair, either part of which may be bytes, or something else. */
  datatype Chunk = Pair(head: Option<string>, body: Option<string>) | Other

  datatype Reply = Reply(ok: bool, chunks: seq<Chunk>)

  /** What is yielded: the uid, the bytes of the message and those that hold its flags and date. */
  datatype Message = Message(uid: string, raw: string, metadata: string)

  function Head(c: Chunk): Option<string> { if c.Pair? then c.head else None }

  function Body(c: Chunk): Option<string> { if c.Pair? then c.body else None }

  /** The last element that has a part of this kind. */
  function Last(chunks: seq<Chunk>, part: Chunk -> Option<string>): Option<string> {
    if chunks == [] then None
    else if part(chunks[|chunks| - 1]).Some? then part(chunks[|chunks| - 1])
    else Last(chunks[..|chunks| - 1], part)
  }

  /** The FETCH of this uid succeeds and brings a message. */
  predicate Available(uid: string, replies: map<string, Reply>) {
    uid in replies && replies[uid].ok && Last(replies[uid].chunks, Body).Some?
        && Last(replies[uid].chunks, Body).value != ""
  }

  function Fetched(replies: map<string, Reply>): string -> bool { (uid: string) => Available(uid, replies) }

  function Wanted(resume: Option<string>, replies: map<string, Reply>): string -> bool {
    (uid: string) => !Skipped(uid, resume) && Available(uid, replies)
  }

  /** Element k has the text as its part, and no later element has one. */
  predicate HasLast(chunks: seq<Chunk>, part: Chunk -> Option<string>, text: string, k: nat) {
    k < |chunks| && part(chunks[k]) == Some(text) && forall l :: k < l < |chunks| ==> part(chunks[l]) == None
  }

  lemma {:induction false} LastExactly(chunks: seq<Chunk>, part: Chunk -> Option<string>, text: string)
    ensures Last(chunks, part) == Some(text) <==> exists k: nat :: HasLast(chunks, part, text, k)
  {
    if chunks != [] {
      var front, n := chunks[..|chunks| - 1], |chunks| - 1;
      LastExactly(front, part, text);
      if Last(chunks, part) == Some(text) {
        if part(chunks[n]).Some? {
          assert HasLast(chunks, part, text, n);
        } else {
          var k: nat :| HasLast(front, part, text, k);
          assert HasLast(chunks, part, text, k);
        }
      }
      if k: nat :| HasLast(chunks, part, text, k) {
        if k < n { assert HasLast(front, part, text, k); }
      }
    }
  }

  /** The message answers the FETCH of its uid: its bytes are the last body in that answer, and not empty, and
      its metadata the last head, or nothing. */
  ghost predicate Answers(m: Message, replies: map<string, Reply>) {
    && m.uid in replies && replies[m.uid].ok && m.raw != ""
    && (var chunks := replies[m.uid].chunks;
        && (exists k: nat :: HasLast(chunks, Body, m.raw, k))
        && (m.metadata == "" || exists k: nat :: HasLast(chunks, Head, m.metadata, k))
        && (forall k: nat, text :: HasLast(chunks, Head, text, k) ==> m.metadata == text))
  }

  /** A uid can be fetched exactly when some message answers its FETCH. */
  lemma AvailableExactly(uid: string, replies: map<string, Reply>)
    ensures Available(uid, replies) <==> exists m: Message :: m.uid == uid && Answers(m, replies)
  {
    if Available(uid, replies) {
      var m := ReadOf(uid, replies[uid]);
      ReadAnswers(uid, replies);
      assert m.uid == uid && Answers(m, replies);
    }
    if m: Message :| m.uid == uid && Answers(m, replies) {
      LastExactly(replies[uid].chunks, Body, m.raw);
    }
  }

  /** What is read off an answer. */
  function ReadOf(uid: string, r: Reply): Message
    requires Last(r.chunks, Body).Some?
  {
    var head := Last(r.chunks, Head);
    Message(uid, Last(r.chunks, Body).value, if head.Some? then head.value else "")
  }

  lemma ReadAnswers(uid: string, replies: map<string, Reply>)
    requires Available(uid, replies)
    ensures Answers(ReadOf(uid, replies[uid]), replies)
  {
    var m, chunks := ReadOf(uid, replies[uid]), replies[uid].chunks;
    LastExactly(chunks, Body, m.raw);
    forall k: nat, text | HasLast(chunks, Head, text, k) ensures m.metadata == text { LastExactly(chunks, Head, text); }
    if Last(chunks, Head).Some? { LastExactly(chunks, Head, m.metadata); }
  }

  /** The chunk loop: later parts replace earlier ones. */
  method ReadReply(chunks: seq<Chunk>) returns (metadata: Option<string>, raw: Option<string>)
    ensures metadata == Last(chunks, Head) && raw == Last(chunks, Body)
  {
    metadata, raw := None, None;
    for i := 0 to |chunks|
      invariant metadata == Last(chunks[..i], Head) && raw == Last(chunks[..i], Body)
    {
      assert chunks[..i + 1][..i] == chunks[..i];
      if chunks[i].Other? { continue; }
      if chunks[i].head.Some? { metadata := chunks[i].head; }
      if chunks[i].body.Some? { raw := chunks[i].body; }
    }
    assert chunks[..|chunks|] == chunks;
  }

  function UidsOf(messages: seq<Message>): (uids: seq<string>)
    ensures |uids| == |messages| && forall i :: 0 <= i < |messages| ==> uids[i] == messages[i].uid
  {
    seq(|messages|, i requires 0 <= i < |messages| => messages[i].uid)
  }

  /** The messages yielded for a SEARCH answer, each as its FETCH brought it: a message whose FETCH fails
      or is empty is passed over. */
  method IterMessages(uids: seq<string>, resume: Option<string>, replies: map<string, Reply>)
    returns (yielded: seq<Message>)
    ensures UidsOf(yielded) == Keep(uids, Wanted(resume, replies))
    ensures forall i :: 0 <= i < |yielded| ==> Answers(yielded[i], replies)
  {
    yielded := [];
    for i := 0 to |uids|
      invariant UidsOf(yielded) == Keep(uids[..i], Wanted(resume, replies))
      invariant forall k :: 0 <= k < |yielded| ==> Answers(yielded[k], replies)
    {
      assert uids[..i + 1] == uids[..i] + [uids[i]];
      KeepSnoc(uids[..i], uids[i], Wanted(resume, replies));
      if Skipped(uids[i], resume) { continue; }
      if uids[i] !in replies || !replies[uids[i]].ok { continue; }
      var metadata, raw := ReadReply(replies[uids[i]].chunks);
      if raw.None? || raw.value == "" { continue; }
      ReadAnswers(uids[i], replies);
      var m := Message(uids[i], raw.value, if metadata.Some? then metadata.value else "");
      assert UidsOf(yielded + [m]) == UidsOf(yielded) + [m.uid];
      yielded := yielded + [m];
    }
    assert uids[..|uids|] == uids;
  }

  /** A missing cursor and an empty one both let every message through. */
  lemma EmptyCursorIsNone(uids: seq<string>, replies: map<string, Reply>)
    ensures Keep(uids, Wanted(Some(""), replies)) == Keep(uids, Wanted(None, replies)) == Keep(uids, Fetched(replies))
  {
    KeepRest(uids, Wanted(Some(""), replies), Fetched(replies), 0);
    KeepRest(uids, Wanted(None, replies), Fetched(replies), 0);
    assert uids[0..] == uids;
  }

  function After(resume: string): string -> bool { (uid: string) => !UidLte(uid, resume) }

  method EstimatePending(uids: seq<string>, resume: Option<string>) returns (pending: Option<nat>)
    ensures pending == if resume.None? then None else Some(|Keep(uids, After(resume.value))|)
  {
    if resume.None? { return None; }
    var n := 0;
    for i := 0 to |uids|
      invariant n == |Keep(uids[..i], After(resume.value))|
    {
      assert uids[..i + 1] == uids[..i] + [uids[i]];
      KeepSnoc(uids[..i], uids[i], After(resume.value));
      if !UidLte(uids[i], resume.value) { n := n + 1; }
    }
    assert uids[..|uids|] == uids;
    return Some(n);
  }

  /** Unique identifiers are numbers assigned in strictly ascending order (section 2.3.1.1 of RFC 3501). */
  predicate Ascending(uids: seq<string>) {
    && (forall i :: 0 <= i < |uids| ==> AllDigits(uids[i]))
    && (forall i, j :: 0 <= i < j < |uids| ==> Value(uids[i]) < Value(uids[j]))
  }

  predicate AllFetched(uids: seq<string>, replies: map<string, Reply>) {
    forall i :: 0 <= i < |uids| ==> Available(uids[i], replies)
  }

  /** Resuming after the k-th message yields, of the messages behind it, those that can be fetched, so an
      iteration and its resumption together yield what one iteration yields. The estimate is the number
      of all messages behind it, and agrees with what is yielded exactly when all of them are fetched. */
  lemma ResumeIsSuffix(uids: seq<string>, replies: map<string, Reply>, k: nat)
    requires Ascending(uids) && k < |uids|
    ensures var rest := Keep(uids, Wanted(Some(uids[k]), replies));
            && rest == Keep(uids[k + 1..], Fetched(replies))
            && Keep(uids, Wanted(None, replies)) == Keep(uids[..k + 1], Fetched(replies)) + rest
            && (rest == uids[k + 1..] <==> AllFetched(uids[k + 1..], replies))
            && (|rest| == |Keep(uids, After(uids[k]))| <==> AllFetched(uids[k + 1..], replies))
    ensures Keep(uids, After(uids[k])) == uids[k + 1..] == uids[ResumeIndex(uids, Some(uids[k]))..]
  {
    Comparison(uids, k);
    CutAt(uids, replies, k, uids[k]);
    WholeListing(uids, replies, k);
    KeepEverything(uids[k + 1..], Fetched(replies));
    AscendingIndex(uids, k);
  }

  lemma WholeListing(uids: seq<string>, replies: map<string, Reply>, k: nat)
    requires k < |uids|
    ensures Keep(uids, Wanted(None, replies)) == Keep(uids[..k + 1], Fetched(replies))
            + Keep(uids[k + 1..], Fetched(replies))
  {
    KeepRest(uids, Wanted(None, replies), Fetched(replies), 0);
    assert uids[0..] == uids && uids == uids[..k + 1] + uids[k + 1..];
    KeepConcat(uids[..k + 1], uids[k + 1..], Fetched(replies));
  }

  lemma CutAt(uids: seq<string>, replies: map<string, Reply>, k: nat, c: string)
    requires k < |uids| && c != ""
    requires forall i :: 0 <= i < |uids| ==> UidLte(uids[i], c) == (i <= k)
    ensures Keep(uids, Wanted(Some(c), replies)) == Keep(uids[k + 1..], Fetched(replies))
    ensures Keep(uids, After(c)) == uids[k + 1..]
  {
    WantedCut(uids, replies, k, c);
    KeepSuffix(uids, After(c), k + 1);
  }

  lemma WantedCut(uids: seq<string>, replies: map<string, Reply>, k: nat, c: string)
    requires k < |uids| && c != ""
    requires forall i :: 0 <= i < |uids| ==> UidLte(uids[i], c) == (i <= k)
    ensures Keep(uids, Wanted(Some(c), replies)) == Keep(uids[k + 1..], Fetched(replies))
  {
    forall i | 0 <= i < k + 1 ensures !Wanted(Some(c), replies)(uids[i]) {}
    forall i | k + 1 <= i < |uids| ensures Wanted(Some(c), replies)(uids[i]) == Fetched(replies)(uids[i]) {}
    KeepRest(uids, Wanted(Some(c), replies), Fetched(replies), k + 1);
  }

  predicate Served(uid: string, cursor: string, listing: seq<string>, replies: map<string, Reply>) {
    uid in Keep(listing, Wanted(Some(cursor), replies))
  }

  /** What is passed over stays passed over: once the cursor is at or past a uid, no later listing and
      no later FETCH serves it again; every other uid some later iteration serves. */
  lemma ServedAgainExactly(uid: string, cursor: string)
    requires cursor != ""
    ensures (exists listing, replies :: Served(uid, cursor, listing, replies)) <==> !UidLte(uid, cursor)
  {
    forall listing, replies ensures Served(uid, cursor, listing, replies) ==> !UidLte(uid, cursor) {
      KeepMember(listing, Wanted(Some(cursor), replies), uid);
    }
    if !UidLte(uid, cursor) {
      var replies := map[uid := Reply(true, [Pair(None, Some("message"))])];
      assert Available(uid, replies) by { assert replies[uid].chunks[..0] == []; }
      KeepMember([uid], Wanted(Some(cursor), replies), uid);
      assert Served(uid, cursor, [uid], replies);
    }
  }

  lemma Comparison(uids: seq<string>, k: nat)
    requires Ascending(uids) && k < |uids|
    ensures forall i :: 0 <= i < |uids| ==> UidLte(uids[i], uids[k]) == (i <= k)
  {
    forall i | 0 <= i < |uids| ensures UidLte(uids[i], uids[k]) == (i <= k) {
      if i < k { assert Value(uids[i]) < Value(uids[k]); }
      if k < i { assert Value(uids[k]) < Value(uids[i]); }
    }
  }

  lemma AscendingIndex(uids: seq<string>, k: nat)
    requires Ascending(uids) && k < |uids|
    ensures ResumeIndex(uids, Some(uids[k])) == k + 1
  {
    assert Distinct(uids) by {
      forall i, j | 0 <= i < j < |uids| ensures uids[i] != uids[j] { assert Value(uids[i]) < Value(uids[j]); }
    }
    IndexOfUnique(uids, k);
  }
}

module Pop3Source {
  import opened Cursors
  import opened Text
  import opened SourceFilter

  datatype Result<T> = Ok(value: T) | Error(message: string)

  /** line.split(maxsplit=1): the first word and, if there is one, everything from the second on. */
  function SplitOnce(line: string): Option<(string, string)> {
    LStripShorter(line);
    var t := LStrip(line);
    var rest := LStrip(t[|Word(t)|..]);
    if t == "" || rest == "" then None else Some((Word(t), rest))
  }

  /** UIDL lines "number unique-id"; a later line for the same number wins. */
  function UidLookup(lines: seq<string>): map<nat, string> {
    if lines == [] then map[]
    else
      var front := UidLookup(lines[..|lines| - 1]);
      var parts := SplitOnce(lines[|lines| - 1]);
      if parts.Some? && AllDigits(parts.value.0) then front[Value(parts.value.0) := parts.value.1] else front
  }

  /** The server may not support UIDL: then the lookup is empty. */
  method BuildUidLookup(uidl: Option<seq<string>>) returns (lookup: map<nat, string>)
    ensures lookup == Lookup(uidl)
  {
    lookup := map[];
    if uidl.None? { return; }
    var lines := uidl.value;
    for i := 0 to |lines|
      invariant lookup == UidLookup(lines[..i])
    {
      assert lines[..i + 1][..i] == lines[..i];
      var parts := SplitOnce(lines[i]);
      if parts.Some? && AllDigits(parts.value.0) { lookup := lookup[Value(parts.value.0) := parts.value.1]; }
    }
    assert lines[..|lines|] == lines;
  }

  /** A message as the server numbers it in this session, and the id it is known by. */
  datatype Entry = Entry(number: nat, id: string)

  /** One entry for each LIST line that starts with a message number, in order. */
  function Listed(lines: seq<string>, lookup: map<nat, string>): seq<Entry> {
    if lines == [] then []
    else
      var front := Listed(lines[..|lines| - 1], lookup);
      var parts := Words(lines[|lines| - 1]);
      if parts == [] || !AllDigits(parts[0]) then front
      else
        var n := Value(parts[0]);
        front + [Entry(n, if n in lookup then lookup[n] else Decimal(n))]
  }

  function IdsOf(entries: seq<Entry>): (ids: seq<string>)
    ensures |ids| == |entries| && forall i :: 0 <= i < |entries| ==> ids[i] == entries[i].id
  {
    seq(|entries|, i requires 0 <= i < |entries| => entries[i].id)
  }

  method OrderedMessages(lines: seq<string>, lookup: map<nat, string>) returns (entries: seq<Entry>)
    ensures entries == Listed(lines, lookup)
  {
    entries := [];
    for i := 0 to |lines|
      invariant entries == Listed(lines[..i], lookup)
    {
      assert lines[..i + 1][..i] == lines[..i];
      var parts := Words(lines[i]);
      if parts == [] || !AllDigits(parts[0]) { continue; }
      var n := Value(parts[0]);
      entries := entries + [Entry(n, if n in lookup then lookup[n] else Decimal(n))];
    }
    assert lines[..|lines|] == lines;
  }

  function Pending(entries: seq<Entry>, resume: Option<string>): seq<Entry> {
    if Given(resume) then entries[ResumeIndex(IdsOf(entries), resume)..] else entries
  }

  function Lookup(uidl: Option<seq<string>>): map<nat, string> { if uidl.None? then map[] else UidLookup(uidl.value) }

  /** The messages retrieved, each by its number and known by its id. */
  method IterMessages(mailbox: string, list: seq<string>, uidl: Option<seq<string>>, resume: Option<string>)
    returns (r: Result<seq<Entry>>)
    ensures r.Ok? <==> UpperEquals(mailbox, "INBOX")
    ensures r.Ok? ==> r.value == Pending(Listed(list, Lookup(uidl)), resume)
  {
    if !UpperEquals(mailbox, "INBOX") { return Error("POP3 source supports only the INBOX mailbox."); }
    var lookup := BuildUidLookup(uidl);
    var entries := OrderedMessages(list, lookup);
    var ids := IdsOf(entries);
    var start := 0;
    if Given(resume) && resume.value in ids { start := IndexOf(ids, resume.value) + 1; }
    return Ok(entries[start..]);
  }

  method EstimatePending(mailbox: string, list: seq<string>, uidl: Option<seq<string>>, resume: Option<string>)
    returns (r: Result<Option<nat>>)
    ensures resume.None? ==> r == Ok(None)
    ensures resume.Some? ==> (r.Ok? <==> UpperEquals(mailbox, "INBOX"))
    ensures resume.Some? && r.Ok? ==>
              var ids := IdsOf(Listed(list, Lookup(uidl)));
              r.value == Some(|ids| - ResumeIndex(ids, resume))
  {
    if resume.None? { return Ok(None); }
    if !UpperEquals(mailbox, "INBOX") { return Error("POP3 source supports only the INBOX mailbox."); }
    var lookup := BuildUidLookup(uidl);
    var entries := OrderedMessages(list, lookup);
    var ids := IdsOf(entries);
    if ids == [] { return Ok(Some(0)); }
    if resume.value !in ids { return Ok(Some(|ids|)); }
    var left := |ids| - IndexOf(ids, resume.value) - 1;
    return Ok(Some(if left > 0 then left else 0));
  }

  /** Unique-ids are distinct (section 7 of RFC 1939), so the index of a yielded id is its position. */
  lemma ResumeIsSuffix(entries: seq<Entry>, k: nat)
    requires Distinct(IdsOf(entries)) && k < |entries| && entries[k].id != ""
    ensures Pending(entries, None) == entries == entries[..k + 1] + Pending(entries, Some(entries[k].id))
    ensures Pending(entries, Some(entries[k].id)) == entries[k + 1..]
    ensures |Pending(entries, Some(entries[k].id))| == |entries| - ResumeIndex(IdsOf(entries), Some(entries[k].id))
  {
    IndexOfUnique(IdsOf(entries), k);
  }

  /** An empty cursor, like a missing one, starts at the beginning. */
  lemma EmptyCursorIsNone(entries: seq<Entry>)
    ensures Pending(entries, Some("")) == Pending(entries, None) == entries
  {
  }

  /** A cursor the server no longer lists replays the mailbox from the start. */
  lemma UnknownCursorReplays(entries: seq<Entry>, cursor: string)
    requires cursor !in IdsOf(entries)
    ensures Pending(entries, Some(cursor)) == entries
  {
  }
}

module DavSource {
  import opened Cursors
  import opened Text
  import opened TextLaws
  import opened SourceFilter

  function Wanted(resume: Option<string>): string -> bool {
    (id: string) => !(Given(resume) && LexLe(id, resume.value))
  }

  method IterItems(listed: seq<string>, resume: Option<string>) returns (yielded: seq<string>)
    ensures yielded == Keep(SortStrings(listed), Wanted(resume))
  {
    var ids := SortStrings(listed);
    yielded := [];
    for i := 0 to |ids|
      invariant yielded == Keep(ids[..i], Wanted(resume))
    {
      assert ids[..i + 1] == ids[..i] + [ids[i]];
      KeepSnoc(ids[..i], ids[i], Wanted(resume));
      if Given(resume) && LexLe(ids[i], resume.value) { continue; }
      yielded := yielded + [ids[i]];
    }
    assert ids[..|ids|] == ids;
  }

  function Beyond(resume: string): string -> bool { (id: string) => !LexLe(id, resume) }

  function EstimatePending(listed: seq<string>, resume: Option<string>): Option<nat> {
    if resume.None? then None else Some(|Keep(SortStrings(listed), Beyond(resume.value))|)
  }

  /** With distinct ids the sorted listing cut at a yielded id is what comes after it. */
  lemma ResumeIsSuffix(listed: seq<string>, k: nat)
    requires Distinct(SortStrings(listed)) && k < |SortStrings(listed)| && SortStrings(listed)[k] != ""
    ensures var all := SortStrings(listed);
            && Keep(all, Wanted(None)) == all == all[..k + 1] + Keep(all, Wanted(Some(all[k])))
            && Keep(all, Wanted(Some(all[k]))) == all[k + 1..] == all[ResumeIndex(all, Some(all[k]))..]
            && EstimatePending(listed, Some(all[k])) == Some(|all| - k - 1)
  {
    SortStringsSorts(listed);
    CutAt(SortStrings(listed), k);
  }

  lemma CutAt(all: seq<string>, k: nat)
    requires Sorted(all) && Distinct(all) && k < |all| && all[k] != ""
    ensures Keep(all, Wanted(None)) == all == all[..k + 1] + all[k + 1..]
    ensures Keep(all, Wanted(Some(all[k]))) == all[k + 1..] && Keep(all, Beyond(all[k])) == all[k + 1..]
    ensures ResumeIndex(all, Some(all[k])) == k + 1
  {
    var c := all[k];
    forall i | 0 <= i < |all| ensures LexLe(all[i], c) <==> i <= k {
      LexReflexive(c);
      LexTotal(all[i], c);
    }
    KeepSuffix(all, Wanted(None), 0);
    FilterAt(all, k, c);
    IndexOfUnique(all, k);
  }

  lemma FilterAt(all: seq<string>, k: nat, c: string)
    requires k < |all| && c != "" && forall i :: 0 <= i < |all| ==> (LexLe(all[i], c) <==> i <= k)
    ensures Keep(all, Wanted(Some(c))) == all[k + 1..] && Keep(all, Beyond(c)) == all[k + 1..]
  {
    KeepSuffix(all, Wanted(Some(c)), k + 1);
    KeepSuffix(all, Beyond(c), k + 1);
  }

  /** An empty cursor, like a missing one, lets every item through. */
  lemma EmptyCursorIsNone(ids: seq<string>)
    ensures Keep(ids, Wanted(Some(""))) == Keep(ids, Wanted(None)) == ids
  {
    KeepSuffix(ids, Wanted(Some("")), 0);
    KeepSuffix(ids, Wanted(None), 0);
  }

  // ---------------------------------------------------------------- a collection that grows

  /** Exactly when new items keep a sorted listing append-only: none of them sorts before an old one. */
  lemma GrowsAtTheEndExactly(listed: seq<string>, more: seq<string>)
    ensures SortStrings(listed) <= SortStrings(listed + more) <==>
            forall i, j :: 0 <= i < |listed| && 0 <= j < |more| ==> LexLe(listed[i], more[j])
  {
    var before, all := SortStrings(listed), SortStrings(listed + more);
    SortStringsSorts(listed);
    SortStringsSorts(listed + more);
    if before <= all { PrefixMeansLater(listed, more); }
    if forall i, j :: 0 <= i < |listed| && 0 <= j < |more| ==> LexLe(listed[i], more[j]) {
      SortStringsSorts(more);
      LaterSortsBehind(listed, more);
    }
  }

  lemma PrefixMeansLater(listed: seq<string>, more: seq<string>)
    requires SortStrings(listed) <= SortStrings(listed + more)
    ensures forall i, j :: 0 <= i < |listed| && 0 <= j < |more| ==> LexLe(listed[i], more[j])
  {
    var before, all := SortStrings(listed), SortStrings(listed + more);
    SortStringsSorts(listed);
    SortStringsSorts(listed + more);
    var rest := all[|before|..];
    assert all == before + rest;
    RestIsNew(before, rest, listed, more);
    forall i, j | 0 <= i < |listed| && 0 <= j < |more| ensures LexLe(listed[i], more[j]) {
      SortedSplit(before, rest, listed[i], more[j]);
    }
  }

  lemma RestIsNew(before: seq<string>, rest: seq<string>, listed: seq<string>, more: seq<string>)
    requires multiset(before) == multiset(listed) && multiset(before + rest) == multiset(listed + more)
    ensures forall i :: 0 <= i < |listed| ==> listed[i] in before
    ensures forall j :: 0 <= j < |more| ==> more[j] in rest
  {
    assert multiset(before) + multiset(rest) == multiset(listed) + multiset(more);
    assert multiset(rest) == multiset(before) + multiset(rest) - multiset(before);
    assert multiset(more) == multiset(listed) + multiset(more) - multiset(listed);
    forall i | 0 <= i < |listed| ensures listed[i] in before { assert listed[i] in multiset(before); }
    forall j | 0 <= j < |more| ensures more[j] in rest { assert more[j] in multiset(rest); }
  }

  lemma SortedSplit(front: seq<string>, back: seq<string>, x: string, y: string)
    requires Sorted(front + back) && x in front && y in back
    ensures LexLe(x, y)
  {
    var a :| 0 <= a < |front| && front[a] == x;
    var b :| 0 <= b < |back| && back[b] == y;
    assert (front + back)[a] == x && (front + back)[|front| + b] == y;
  }

  lemma LaterSortsBehind(listed: seq<string>, more: seq<string>)
    requires forall i, j :: 0 <= i < |listed| && 0 <= j < |more| ==> LexLe(listed[i], more[j])
    ensures SortStrings(listed + more) == SortStrings(listed) + SortStrings(more)
  {
    var before, after, all := SortStrings(listed), SortStrings(more), SortStrings(listed + more);
    SortStringsSorts(listed);
    SortStringsSorts(more);
    SortStringsSorts(listed + more);
    assert multiset(before + after) == multiset(listed) + multiset(more) == multiset(all);
    forall i, j | 0 <= i < |before| && 0 <= j < |after| ensures LexLe(before[i], after[j]) {
      assert before[i] in multiset(listed) && after[j] in multiset(more);
      var a :| 0 <= a < |listed| && listed[a] == before[i];
      var b :| 0 <= b < |more| && more[b] == after[j];
    }
    SortedOnce(all, before + after);
  }

  /** An item that turns up at or before the cursor is never served, in whatever listing it stands. */
  lemma BehindCursorNeverServed(listed: seq<string>, cursor: string, id: string)
    requires cursor != "" && LexLe(id, cursor)
    ensures id !in Keep(SortStrings(listed), Wanted(Some(cursor)))
  {
    KeepMember(SortStrings(listed), Wanted(Some(cursor)), id);
  }
}
