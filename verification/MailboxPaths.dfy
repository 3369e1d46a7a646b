/** Destination mailboxes: every parent is created before the mailbox messages are appended to. */
module MailboxPaths {
  import opened Text
  import opened TextLaws

  function CanonicalPathParts(mailbox: string): seq<string> {
    if '/' in mailbox then NonEmpty(SplitOn(mailbox, '/')) else if mailbox != "" then [mailbox] else []
  }

  /** Parts that are not empty and hold no slash. */
  predicate PathParts(parts: seq<string>) { forall i :: 0 <= i < |parts| ==> parts[i] != "" && '/' !in parts[i] }

  function Slashed(parts: seq<string>): string {
    if parts == [] then "" else if |parts| == 1 then parts[0] else parts[0] + ['/'] + Slashed(parts[1..])
  }

  lemma {:induction false} SplitSlashed(parts: seq<string>)
    requires PathParts(parts) && parts != []
    ensures NonEmpty(SplitOn(Slashed(parts), '/')) == parts
    ensures |parts| > 1 ==> '/' in Slashed(parts)
    ensures Slashed(parts) != ""
  {
    if |parts| == 1 {
      SplitOnPlain(parts[0], '/');
      assert NonEmpty([parts[0]]) == [parts[0]] + NonEmpty([]);
    } else {
      SplitOnCut(parts[0], '/', Slashed(parts[1..]));
      SplitSlashed(parts[1..]);
      var tail := SplitOn(Slashed(parts[1..]), '/');
      assert ([parts[0]] + tail)[1..] == tail;
      assert Slashed(parts)[|parts[0]|] == '/';
    }
  }

  /** A mailbox name is read as the parts between its slashes. */
  lemma PartsOfPath(parts: seq<string>)
    requires PathParts(parts)
    ensures CanonicalPathParts(Slashed(parts)) == parts
  {
    if parts != [] { SplitSlashed(parts); }
  }

  lemma SplitHead(c: char, s: string)
    ensures var rest := SplitOn(s, '/');
            SplitOn([c] + s, '/') == if c == '/' then [""] + rest else [[c] + rest[0]] + rest[1..]
  {
    assert ([c] + s)[1..] == s;
  }

  lemma {:induction false} SplitAtSlash(a: string, b: string)
    ensures SplitOn(a + "/" + b, '/') == SplitOn(a, '/') + SplitOn(b, '/')
  {
    if a == "" {
      assert a + "/" + b == ['/'] + b;
      SplitHead('/', b);
    } else {
      assert a == [a[0]] + a[1..];
      assert a + "/" + b == [a[0]] + (a[1..] + "/" + b);
      SplitHead(a[0], a[1..]);
      SplitHead(a[0], a[1..] + "/" + b);
      SplitAtSlash(a[1..], b);
      HeadOfBoth(a[0], SplitOn(a[1..], '/'), SplitOn(b, '/'));
    }
  }

  lemma HeadOfBoth(c: char, front: seq<string>, back: seq<string>)
    requires front != []
    ensures [""] + (front + back) == [""] + front + back
    ensures [[c] + (front + back)[0]] + (front + back)[1..] == [[c] + front[0]] + front[1..] + back
  {
  }

  lemma {:induction false} NonEmptyBoth(xs: seq<string>, ys: seq<string>)
    ensures NonEmpty(xs + ys) == NonEmpty(xs) + NonEmpty(ys)
  {
    if xs == [] {
      assert xs + ys == ys;
    } else {
      assert (xs + ys)[1..] == xs[1..] + ys;
      NonEmptyBoth(xs[1..], ys);
    }
  }

  function Named(mailbox: string): seq<string> { NonEmpty(SplitOn(mailbox, '/')) }

  lemma NamedBoth(a: string, b: string)
    ensures Named(a + "/" + b) == Named(a) + Named(b) && '/' in a + "/" + b && Named("") == []
  {
    SplitAtSlash(a, b);
    NonEmptyBoth(SplitOn(a, '/'), SplitOn(b, '/'));
    assert (a + "/" + b)[|a|] == '/';
  }

  /** Slashes at either end and doubled slashes make no part. */
  lemma SlashesDoNotCount(a: string, b: string)
    ensures CanonicalPathParts("/" + a) == CanonicalPathParts(a + "/") == Named(a)
    ensures CanonicalPathParts(a + "//" + b) == CanonicalPathParts(a + "/" + b) == Named(a) + Named(b)
  {
    NamedBoth("", a);
    NamedBoth(a, "");
    NamedBoth(a, "/" + b);
    NamedBoth("", b);
    NamedBoth(a, b);
    assert "" + "/" + a == "/" + a && a + "/" + "" == a + "/" && "" + "/" + b == "/" + b;
    assert a + "/" + ("/" + b) == a + "//" + b;
  }

  /** delimiter.join(parts). */
  function JoinWith(parts: seq<string>, delimiter: string): string {
    if parts == [] then ""
    else if |parts| == 1 then parts[0]
    else JoinWith(parts[..|parts| - 1], delimiter) + delimiter + parts[|parts| - 1]
  }

  function FormatMailbox(mailbox: string, delimiter: string): string {
    JoinWith(CanonicalPathParts(Strip(mailbox)), delimiter)
  }

  lemma {:induction false} NonEmptyParts(parts: seq<string>)
    ensures forall i :: 0 <= i < |NonEmpty(parts)| ==> NonEmpty(parts)[i] != ""
  {
    if parts != [] { NonEmptyParts(parts[1..]); }
  }

  /** Each result extends the one before it by a delimiter and one part. */
  method MailboxPathParts(mailbox: string, delimiter: string) returns (results: seq<string>)
    ensures var parts := CanonicalPathParts(mailbox);
            && |results| == |parts|
            && forall i :: 0 <= i < |parts| ==> results[i] == JoinWith(parts[..i + 1], delimiter)
  {
    var parts := CanonicalPathParts(mailbox);
    NonEmptyParts(SplitOn(mailbox, '/'));
    var current := "";
    results := [];
    for i := 0 to |parts|
      invariant |results| == i && current == JoinWith(parts[..i], delimiter) && (current == "" <==> i == 0)
      invariant forall k :: 0 <= k < i ==> results[k] == JoinWith(parts[..k + 1], delimiter)
    {
      assert parts[..i + 1][..i] == parts[..i];
      current := if current == "" then parts[i] else current + delimiter + parts[i];
      results := results + [current];
    }
  }

  /** The paths that lead to a mailbox, the mailbox itself last. */
  function Paths(mailbox: string, delimiter: string): (paths: seq<string>)
    ensures |paths| == |CanonicalPathParts(mailbox)|
  {
    var parts := CanonicalPathParts(mailbox);
    seq(|parts|, i requires 0 <= i < |parts| => JoinWith(parts[..i + 1], delimiter))
  }

  /** Each path extends the one before it by the delimiter and one part, and the last one is the name a
      message is appended under. */
  lemma PathsExtend(mailbox: string, delimiter: string)
    requires Strip(mailbox) == mailbox
    ensures var parts, paths := CanonicalPathParts(mailbox), Paths(mailbox, delimiter);
            && (forall i :: 0 < i < |paths| ==> paths[i] == paths[i - 1] + delimiter + parts[i])
            && (paths != [] ==> paths[0] == parts[0])
            && FormatMailbox(mailbox, delimiter) == if paths == [] then "" else paths[|paths| - 1]
  {
    var parts, paths := CanonicalPathParts(mailbox), Paths(mailbox, delimiter);
    assert parts[..|parts|] == parts;
    if paths != [] { assert paths[0] == JoinWith(parts[..1], delimiter) == parts[..1][0]; }
    forall i | 0 < i < |paths| ensures paths[i] == paths[i - 1] + delimiter + parts[i] {
      var front := parts[..i + 1];
      assert front[..|front| - 1] == parts[..i] && front[|front| - 1] == parts[i];
      assert paths[i] == JoinWith(front, delimiter) && paths[i - 1] == JoinWith(parts[..i], delimiter);
    }
  }

  /** The destination: the mailboxes of the server, what was appended to them, and the cache of names
      whose path was ensured. The server may refuse any call, and nobody deletes a mailbox. */
  class ImapDestination {
    const delimiter: string
    const fold: string -> string   // casefold
    var ensured: set<string>
    var mailboxes: set<string>
    var appended: seq<string>

    constructor (delimiter: string, fold: string -> string, mailboxes: set<string>)
      ensures Valid() && this.delimiter == delimiter && this.fold == fold && this.mailboxes == mailboxes
      ensures ensured == {} && appended == []
    {
      this.delimiter, this.fold, this.mailboxes, ensured, appended := delimiter, fold, mailboxes, {}, [];
    }

    /** The inbox always exists and is never created. */
    predicate Exists(name: string)
      reads this
    {
      name in mailboxes || fold(name) == "inbox"
    }

    ghost predicate PathExists(mailbox: string, upTo: nat)
      reads this
    {
      forall i :: 0 <= i < upTo && i < |Paths(mailbox, delimiter)| ==> Exists(Paths(mailbox, delimiter)[i])
    }

    /** The whole path of every cached name exists. */
    ghost predicate Valid()
      reads this
    {
      forall m :: m in ensured ==> Strip(m) == m && PathExists(m, |Paths(m, delimiter)|)
    }

    method CreateIfMissing(name: string) returns (raised: bool)
      requires Valid()
      modifies this`mailboxes
      ensures Valid() && (!raised ==> Exists(name))
      ensures mailboxes == if raised || fold(name) == "inbox" then old(mailboxes) else old(mailboxes) + {name}
    {
      raised := false;
      if fold(name) == "inbox" { return; }
      raised := *;
      if !raised { mailboxes := mailboxes + {name}; }
    }

    /** Creates what is missing of the path, parents first; a cached name asks the server for nothing. */
    method EnsureMailbox(mailbox: string) returns (raised: bool)
      requires Valid()
      modifies this`mailboxes, this`ensured
      ensures Valid()
      ensures Strip(mailbox) == "" ==> raised
      ensures Strip(mailbox) != "" && Strip(mailbox) in old(ensured) ==> !raised && mailboxes == old(mailboxes)
      ensures ensured == if raised then old(ensured) else old(ensured) + {Strip(mailbox)}
      ensures old(mailboxes) <= mailboxes
      ensures forall m :: m in mailboxes && m !in old(mailboxes) ==>
                m in Paths(Strip(mailbox), delimiter) && fold(m) != "inbox"
      ensures !raised ==> PathExists(Strip(mailbox), |Paths(Strip(mailbox), delimiter)|)
    {
      var name := Strip(mailbox);
      StripTwice(mailbox);
      if name == "" { return true; }
      if name in ensured { return false; }
      raised := CreatePath(name);
      if !raised { ensured := ensured + {name}; }
    }

    method CreatePath(name: string) returns (raised: bool)
      requires Valid()
      modifies this`mailboxes
      ensures Valid() && old(mailboxes) <= mailboxes
      ensures forall m :: m in mailboxes && m !in old(mailboxes) ==> m in Paths(name, delimiter) && fold(m) != "inbox"
      ensures !raised ==> PathExists(name, |Paths(name, delimiter)|)
    {
      raised := false;
      var parts := MailboxPathParts(name, delimiter);
      assert parts == Paths(name, delimiter);
      for i := 0 to |parts|
        invariant Valid() && old(mailboxes) <= mailboxes && PathExists(name, i) && !raised
        invariant forall m :: m in mailboxes && m !in old(mailboxes) ==>
                    m in Paths(name, delimiter) && fold(m) != "inbox"
      {
        raised := CreateIfMissing(parts[i]);
        if raised { return; }
      }
    }

    /** After a mailbox was ensured, what is appended goes to a mailbox that exists, and so do its
        parents. A name made of slashes only has no path and is appended to under the empty name. */
    method AppendMessage(mailbox: string) returns (raised: bool)
      requires Valid()
      modifies this`appended
      ensures Valid()
      ensures Strip(mailbox) == "" ==> raised
      ensures appended == if raised then old(appended) else old(appended) + [FormatMailbox(mailbox, delimiter)]
      ensures Strip(mailbox) in ensured && Paths(Strip(mailbox), delimiter) != [] ==>
              Exists(FormatMailbox(mailbox, delimiter))
    {
      StripTwice(mailbox);
      PathsExtend(Strip(mailbox), delimiter);
      if Strip(mailbox) == "" { return true; }
      raised := *;
      if !raised { appended := appended + [FormatMailbox(mailbox, delimiter)]; }
    }
  }

  lemma StripTwice(s: string)
    ensures Strip(Strip(s)) == Strip(s)
  {
    LStripShorter(s);
    RStripEnd(LStrip(s));
    RStripTwice(LStrip(s));
  }
}
