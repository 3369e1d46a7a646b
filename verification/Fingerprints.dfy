/** The seed strings whose digests identify ledger rows, and what equal seeds imply. */
module Fingerprints {
  import opened Cursors
  import opened Text
  import opened TextLaws

  type Bytes = seq<bv8>

  function LStripOf(s: string, c: char): string { if s != "" && s[0] == c then LStripOf(s[1..], c) else s }

  function RStripOf(s: string, c: char): string {
    if s != "" && s[|s| - 1] == c then RStripOf(s[..|s| - 1], c) else s
  }

  /** `lower` is str.lower. */
  function NormalizeMessageId(id: Option<string>, lower: string -> string): Option<string> {
    if id.None? || id.value == "" then None
    else
      var normalized := lower(Strip(RStripOf(LStripOf(Strip(id.value), '<'), '>')));
      if normalized == "" then None else Some(normalized)
  }

  function Repeat(c: char, n: nat): string { seq(n, i => c) }

  lemma {:induction false} BracketsOff(n: nat, c: char, rest: string)
    requires rest == "" || rest[0] != c
    ensures LStripOf(Repeat(c, n) + rest, c) == rest
  {
    if n == 0 {
      assert Repeat(c, n) + rest == rest;
    } else {
      assert (Repeat(c, n) + rest)[1..] == Repeat(c, n - 1) + rest;
      BracketsOff(n - 1, c, rest);
    }
  }

  lemma {:induction false} BracketsOffEnd(rest: string, n: nat, c: char)
    requires rest == "" || rest[|rest| - 1] != c
    ensures RStripOf(rest + Repeat(c, n), c) == rest
  {
    if n == 0 {
      assert rest + Repeat(c, n) == rest;
    } else {
      var s := rest + Repeat(c, n);
      assert s[..|s| - 1] == rest + Repeat(c, n - 1);
      BracketsOffEnd(rest, n - 1, c);
    }
  }

  /** A Message-ID is its core in lower case: white space around it, any number of "<" before and of ">"
      behind it, and white space between these and the core are taken off. Without a core there is none. */
  lemma NormalizedCore(lead: string, opening: nat, left: string, core: string, right: string, closing: nat,
                       trail: string, lower: string -> string)
    requires AllSpace(lead) && AllSpace(left) && AllSpace(right) && AllSpace(trail) && Trimmed(core)
    requires core != "" && core[0] != '<' && core[|core| - 1] != '>'
    requires (opening > 0 || left == "") && (closing > 0 || right == "")
    ensures var wrapped := Repeat('<', opening) + (left + core + right) + Repeat('>', closing);
            NormalizeMessageId(Some(lead + wrapped + trail), lower)
            == if lower(core) == "" then None else Some(lower(core))
  {
    var middle := left + core + right;
    var wrapped := Repeat('<', opening) + middle + Repeat('>', closing);
    StripCut(lead, wrapped, trail);
    assert wrapped == Repeat('<', opening) + (middle + Repeat('>', closing));
    BracketsOff(opening, '<', middle + Repeat('>', closing));
    BracketsOffEnd(middle, closing, '>');
    StripCut(left, core, right);
  }

  /** Brackets and white space alone are no Message-ID, and neither is an absent one. */
  lemma NoCore(lead: string, opening: nat, gap: string, closing: nat, trail: string, lower: string -> string)
    requires AllSpace(lead) && AllSpace(gap) && AllSpace(trail) && lower("") == ""
    requires opening > 0 && closing > 0
    ensures NormalizeMessageId(Some(lead + (Repeat('<', opening) + gap + Repeat('>', closing)) + trail), lower) == None
    ensures NormalizeMessageId(Some(lead), lower) == None == NormalizeMessageId(None, lower)
  {
    var wrapped := Repeat('<', opening) + gap + Repeat('>', closing);
    StripCut(lead, wrapped, trail);
    assert wrapped == Repeat('<', opening) + (gap + Repeat('>', closing));
    BracketsOff(opening, '<', gap + Repeat('>', closing));
    BracketsOffEnd(gap, closing, '>');
    AllSpaceStrips(gap);
    AllSpaceStrips(lead);
  }

  function MessageIdSeed(id: string, size: nat): string { "mid:" + id + "|size:" + Decimal(size) }

  function RawSeed(digest: string, hint: string, size: nat): string {
    "raw:" + digest + "|source:" + hint + "|size:" + Decimal(size)
  }

  /** `extracted` is the Message-ID the header parser finds in the message, normalized. */
  function MessageSeed(raw: Bytes, sourceId: Option<string>, messageId: Option<string>, extracted: Option<string>,
                       lower: string -> string, sha256: Bytes -> string): string
  {
    var normalized := NormalizeMessageId(messageId, lower);
    var id := if normalized.Some? then normalized else extracted;
    if id.Some? then MessageIdSeed(id.value, |raw|)
    else RawSeed(sha256(raw), if sourceId.Some? then sourceId.value else "", |raw|)
  }

  function ItemSeed(collection: string, sourceId: string, version: Option<string>, digest: string, size: nat,
                    fold: string -> string): string
  {
    SeedOf(fold(Strip(collection)), Strip(sourceId), VersionText(version), digest, size)
  }

  function VersionText(version: Option<string>): string { if version.Some? then Strip(version.value) else "" }

  /** The seed of a folded collection, a stripped id and a stripped version. */
  function SeedOf(collection: string, id: string, version: string, digest: string, size: nat): string {
    "item:" + collection + "::" + id + "|version:" + version + "|payload:" + digest + "|size:" + Decimal(size)
  }

  /** The part of a seed that is to name the item. */
  function Name(collection: string, id: string, version: string): string {
    collection + "::" + id + "|version:" + version
  }

  /** A Message-ID given with the message names it, however it is wrapped and whatever the header says; without
      one the header's does, and only a message without either is named by its bytes and its source id. */
  lemma GivenIdDecides(raw: Bytes, sourceId: Option<string>, core: string, opening: nat, closing: nat,
                       extracted: Option<string>, lower: string -> string, sha256: Bytes -> string)
    requires Trimmed(core) && core != "" && core[0] != '<' && core[|core| - 1] != '>' && lower(core) != ""
    ensures var id := Repeat('<', opening) + core + Repeat('>', closing);
            MessageSeed(raw, sourceId, Some(id), extracted, lower, sha256) == MessageIdSeed(lower(core), |raw|)
    ensures extracted.Some? ==>
              MessageSeed(raw, sourceId, None, extracted, lower, sha256) == MessageIdSeed(extracted.value, |raw|)
    ensures extracted.None? ==>
              MessageSeed(raw, sourceId, None, None, lower, sha256) ==
              RawSeed(sha256(raw), if sourceId.Some? then sourceId.value else "", |raw|)
  {
    NormalizedCore("", opening, "", core, "", closing, "", lower);
    var id := Repeat('<', opening) + core + Repeat('>', closing);
    assert "" + core + "" == core;
    assert "" + (Repeat('<', opening) + ("" + core + "") + Repeat('>', closing)) + "" == id;
  }

  /** White space around the collection, the id and the version does not count, and neither does the case
      of the collection; a missing version is an empty one. */
  lemma ItemSeedIgnoresBlanks(lead: string, collection: string, id: string, version: string, trail: string,
                              digest: string, size: nat, fold: string -> string)
    requires AllSpace(lead) && AllSpace(trail) && Trimmed(collection) && Trimmed(id) && Trimmed(version)
    ensures ItemSeed(lead + collection + trail, lead + id + trail, Some(lead + version + trail), digest, size, fold) ==
            SeedOf(fold(collection), id, version, digest, size)
    ensures ItemSeed(lead + collection + trail, lead + id + trail, None, digest, size, fold) ==
            SeedOf(fold(collection), id, "", digest, size)
  {
    StripCut(lead, collection, trail);
    StripCut(lead, id, trail);
    StripCut(lead, version, trail);
  }

  /** The seeds as they are written, so that the keys of one release name the rows of another. */
  lemma MessageIdSeedSample()
    ensures MessageIdSeed("a@b", 7) == "mid:a@b|size:7"
  {
    assert Decimal(7) == "7";
  }

  lemma RawSeedSample()
    ensures RawSeed("d1", "12", 7) == "raw:d1|source:12|size:7"
  {
    assert Decimal(7) == "7";
  }

  lemma ItemSeedSample()
    ensures SeedOf("inbox", "x", "v", "d1", 7) == "item:inbox::x|version:v|payload:d1|size:7"
  {
    var name := "item:" + "inbox" + "::" + "x" + "|version:" + "v";
    assert name == "item:inbox::x|version:v";
    assert name + "|payload:" + "d1" + "|size:" == "item:inbox::x|version:v|payload:d1|size:";
    assert Decimal(7) == "7";
  }

  // ---------------------------------------------------------------- reading seeds from the right

  lemma SeparatorNotLater(x: string, d: string, y: string, e: string, sep: char)
    requires x + [sep] + d == y + [sep] + e && sep !in d
    ensures |y| <= |x|
  {
    var s := x + [sep] + d;
    assert s[|y|] == (y + [sep] + e)[|y|] == sep;
    forall i | |x| < i < |s| ensures s[i] != sep { assert s[i] == d[i - |x| - 1]; }
  }

  /** Two strings that end in a part without the separator split at the last separator alike. */
  lemma LastSeparator(x: string, d: string, y: string, e: string, sep: char)
    requires x + [sep] + d == y + [sep] + e && sep !in d && sep !in e
    ensures x == y && d == e
  {
    var s, t := x + [sep] + d, y + [sep] + e;
    SeparatorNotLater(x, d, y, e, sep);
    SeparatorNotLater(y, e, x, d, sep);
    assert s[..|x|] == x && t[..|y|] == y;
    assert s[|x| + 1..] == d && t[|y| + 1..] == e;
  }

  lemma DecimalInjective(m: nat, n: nat)
    requires Decimal(m) == Decimal(n)
    ensures m == n
  {
    assert Value(Decimal(m)) == Value(Decimal(n));
  }

  lemma NoColon(n: nat)
    ensures ':' !in Decimal(n)
  {
    forall i | 0 <= i < |Decimal(n)| ensures Decimal(n)[i] != ':' { assert IsDigit(Decimal(n)[i]); }
  }

  /** The size is the part behind the last colon. */
  lemma SizeFromTheRight(x: string, m: nat, y: string, n: nat)
    requires x + "|size:" + Decimal(m) == y + "|size:" + Decimal(n)
    ensures x == y && m == n
  {
    NoColon(m);
    NoColon(n);
    assert x + "|size:" + Decimal(m) == (x + "|size") + [':'] + Decimal(m);
    assert y + "|size:" + Decimal(n) == (y + "|size") + [':'] + Decimal(n);
    LastSeparator(x + "|size", Decimal(m), y + "|size", Decimal(n), ':');
    DecimalInjective(m, n);
    assert (x + "|size")[..|x|] == x && (y + "|size")[..|y|] == y;
  }

  lemma EqualSuffix(x: string, d: string, y: string, e: string)
    requires x + d == y + e && |d| == |e|
    ensures x == y && d == e
  {
    assert (x + d)[..|x|] == x && (y + e)[..|y|] == y;
    assert (x + d)[|x|..] == d && (y + e)[|y|..] == e;
  }

  lemma EqualPrefix(a: string, x: string, b: string, y: string)
    requires a + x == b + y && |a| == |b|
    ensures a == b && x == y
  {
    assert (a + x)[..|a|] == a && (b + y)[..|b|] == b;
    assert (a + x)[|a|..] == x && (b + y)[|b|..] == y;
  }

  /** A Message-ID seed determines the normalized id and the size. */
  lemma MessageIdSeedUnique(a: string, m: nat, b: string, n: nat)
    ensures MessageIdSeed(a, m) == MessageIdSeed(b, n) <==> a == b && m == n
  {
    if MessageIdSeed(a, m) == MessageIdSeed(b, n) {
      SizeFromTheRight("mid:" + a, m, "mid:" + b, n);
      EqualPrefix("mid:", a, "mid:", b);
    }
  }

  /** A raw seed determines the payload digest, the source hint and the size; digests have one length. */
  lemma RawSeedUnique(d: string, h: string, m: nat, d': string, h': string, n: nat)
    requires |d| == |d'|
    ensures RawSeed(d, h, m) == RawSeed(d', h', n) <==> d == d' && h == h' && m == n
  {
    if RawSeed(d, h, m) == RawSeed(d', h', n) {
      SizeFromTheRight("raw:" + d + "|source:" + h, m, "raw:" + d' + "|source:" + h', n);
      var x, y := "raw:" + d, "raw:" + d';
      assert "raw:" + d + "|source:" + h == x + ("|source:" + h)
          && "raw:" + d' + "|source:" + h' == y + ("|source:" + h');
      EqualPrefix(x, "|source:" + h, y, "|source:" + h');
      EqualPrefix("raw:", d, "raw:", d');
      EqualPrefix("|source:", h, "|source:", h');
    }
  }

  /** An item seed is its name, its payload digest and its size, and determines the last two whatever
      stands in the free-text parts of the name. */
  lemma ItemSeedParts(c: string, i: string, v: string, d: string, m: nat, c': string, i': string, v': string,
                      d': string, n: nat)
    requires |d| == |d'|
    ensures SeedOf(c, i, v, d, m) == SeedOf(c', i', v', d', n) <==>
            Name(c, i, v) == Name(c', i', v') && d == d' && m == n
  {
    SeedShape(c, i, v, d, m);
    SeedShape(c', i', v', d', n);
    var x, y := "item:" + Name(c, i, v) + "|payload:", "item:" + Name(c', i', v') + "|payload:";
    if SeedOf(c, i, v, d, m) == SeedOf(c', i', v', d', n) {
      SizeFromTheRight(x + d, m, y + d', n);
      EqualSuffix(x, d, y, d');
      EqualSuffix("item:" + Name(c, i, v), "|payload:", "item:" + Name(c', i', v'), "|payload:");
      EqualPrefix("item:", Name(c, i, v), "item:", Name(c', i', v'));
    }
  }

  lemma SeedShape(c: string, i: string, v: string, d: string, m: nat)
    ensures SeedOf(c, i, v, d, m) == "item:" + Name(c, i, v) + "|payload:" + d + "|size:" + Decimal(m)
  {
    assert "item:" + c + "::" + i + "|version:" + v == "item:" + (c + "::" + i + "|version:" + v);
  }

  /** An item seed determines the payload digest and the size, whatever stands in its free-text parts. */
  lemma ItemSeedPayload(c: string, i: string, v: Option<string>, d: string, m: nat,
                        c': string, i': string, v': Option<string>, d': string, n: nat, fold: string -> string)
    requires |d| == |d'| && ItemSeed(c, i, v, d, m, fold) == ItemSeed(c', i', v', d', n, fold)
    ensures d == d' && m == n
  {
    ItemSeedParts(fold(Strip(c)), Strip(i), VersionText(v), d, m, fold(Strip(c')), Strip(i'), VersionText(v'), d', n);
  }

  // ---------------------------------------------------------------- when an item seed names its item

  /** A stripped text starts and ends with something other than white space, unless it is empty. */
  predicate Trimmed(s: string) { s == "" || (!IsSpace(s[0]) && !IsSpace(s[|s| - 1])) }

  /** `longer` reads as `shorter`, its separator and the start of an id. */
  predicate ReadsOn(shorter: string, longer: string) {
    |shorter| < |longer| && shorter + "::" <= longer + "::" && !IsSpace((longer + "::")[|shorter| + 2])
  }

  /** Two folded collections that a choice of ids can make look alike. */
  predicate CollectionsClash(c: string, c': string) { c == c' || ReadsOn(c, c') || ReadsOn(c', c) }

  /** `longer` reads as the end of an id, the version separator and `shorter`. */
  predicate EndsOn(shorter: string, longer: string) {
    && |shorter| + 9 <= |longer| && longer[|longer| - |shorter| - 9..] == "|version:" + shorter
    && (|longer| > |shorter| + 9 ==> !IsSpace(longer[|longer| - |shorter| - 10]))
  }

  predicate VersionsClash(v: string, v': string) { v == v' || EndsOn(v, v') || EndsOn(v', v) }

  /** Names agree only for the same collection, id and version, whatever the two ids are. */
  ghost predicate NamesItems(c: string, v: string, c': string, v': string) {
    forall i, i' :: Trimmed(i) && Trimmed(i') && Name(c, i, v) == Name(c', i', v') ==> c == c' && i == i' && v == v'
  }

  lemma SameNameParts(c: string, i: string, i': string, v: string)
    requires Name(c, i, v) == Name(c, i', v)
    ensures i == i'
  {
    assert Name(c, i, v) == (c + "::" + i) + ("|version:" + v) && Name(c, i', v) == (c + "::" + i') + ("|version:" + v);
    EqualSuffix(c + "::" + i, "|version:" + v, c + "::" + i', "|version:" + v);
    EqualPrefix(c + "::", i, c + "::", i');
  }

  /** Where two equal names start with different collections, the longer one reads on from the shorter. */
  lemma CollectionsMustClash(c: string, i: string, v: string, c': string, i': string, v': string)
    requires Trimmed(i) && Name(c, i, v) == Name(c', i', v') && c != c' && |c| <= |c'|
    ensures ReadsOn(c, c')
  {
    var s := Name(c, i, v);
    var rest := i + "|version:" + v;
    var rest' := i' + "|version:" + v';
    assert s == c + "::" + rest && s == c' + "::" + rest';
    assert s[..|c| + 2] == c + "::" && s[..|c'| + 2] == c' + "::";
    assert s[..|c|] == c && s[..|c'|] == c';
    assert (c' + "::")[|c| + 2] == s[|c| + 2] == rest[0];
  }

  lemma VersionsMustClash(c: string, i: string, v: string, c': string, i': string, v': string)
    requires Trimmed(i) && Name(c, i, v) == Name(c', i', v') && v != v' && |v| <= |v'|
    ensures EndsOn(v, v')
  {
    var s := Name(c, i, v);
    var lead, lead' := c + "::" + i, c' + "::" + i';
    assert s == lead + ("|version:" + v) && s == lead' + ("|version:" + v');
    var gap := |v'| - |v|;
    assert v == s[|s| - |v|..] && v' == s[|s| - |v'|..];
    assert |lead| == |lead'| + gap;
    SeparatorWhole(s, lead, v, lead', v', gap);
    assert v' == s[|lead'| + 9..];
    assert v'[gap - 9..] == s[|lead|..] == "|version:" + v;
    if gap > 9 { assert v'[gap - 10] == s[|lead| - 1] == lead[|lead| - 1]; }
  }

  /** Two copies of the separator cannot overlap, because its first character occurs in it only once. */
  lemma SeparatorWhole(s: string, lead: string, v: string, lead': string, v': string, gap: int)
    requires s == lead + ("|version:" + v) == lead' + ("|version:" + v') && |lead| == |lead'| + gap && gap > 0
    ensures gap >= 9
  {
    var here, there := s[|lead|..], s[|lead'|..];
    assert here == "|version:" + v && there == "|version:" + v';
    assert there[gap] == here[0] == '|';
    BarStartsSeparator(v', gap);
  }

  lemma BarStartsSeparator(v: string, k: nat)
    requires k < |"|version:" + v| && ("|version:" + v)[k] == '|' && k > 0
    ensures k >= 9
  {
  }

  /** Ids that make two clashing collections look alike. */
  lemma ClashingIds(c: string, c': string) returns (i: string, i': string)
    requires CollectionsClash(c, c')
    ensures i != "" && i' != "" && Trimmed(i) && Trimmed(i') && c + "::" + i == c' + "::" + i'
  {
    if c == c' { i, i' := "x", "x"; }
    else if ReadsOn(c, c') { i, i' := IdsFor(c, c'); }
    else { i', i := IdsFor(c', c); }
  }

  lemma IdsFor(shorter: string, longer: string) returns (i: string, i': string)
    requires ReadsOn(shorter, longer)
    ensures i != "" && i' != "" && Trimmed(i) && Trimmed(i') && shorter + "::" + i == longer + "::" + i'
  {
    var all := longer + "::" + "x";
    i, i' := all[|shorter| + 2..], "x";
    assert (longer + "::")[..|shorter| + 2] == shorter + "::";
    assert all[..|shorter| + 2] == shorter + "::";
    assert i[0] == (longer + "::")[|shorter| + 2] && i[|i| - 1] == 'x';
  }

  /** Id endings that make two clashing versions look alike. */
  lemma ClashingEnds(v: string, v': string) returns (e: string, e': string)
    requires VersionsClash(v, v')
    ensures e + "|version:" + v == e' + "|version:" + v'
    ensures (e == "" || !IsSpace(e[|e| - 1])) && (e' == "" || !IsSpace(e'[|e'| - 1]))
  {
    if v == v' { e, e' := "", ""; }
    else if EndsOn(v, v') { e, e' := EndsFor(v, v'); }
    else { e', e := EndsFor(v', v); }
  }

  lemma EndsFor(shorter: string, longer: string) returns (e: string, e': string)
    requires EndsOn(shorter, longer)
    ensures e + "|version:" + shorter == e' + "|version:" + longer
    ensures (e == "" || !IsSpace(e[|e| - 1])) && e' == ""
  {
    var cut := |longer| - |shorter| - 9;
    e, e' := "|version:" + longer[..cut], "";
    assert longer == longer[..cut] + ("|version:" + shorter);
    assert e[|e| - 1] == if cut == 0 then ':' else longer[cut - 1];
  }

  lemma EndedId(i: string, e: string)
    requires i != "" && Trimmed(i) && (e == "" || !IsSpace(e[|e| - 1]))
    ensures Trimmed(i + e)
  {
  }

  /** Exactly when item seeds tell items apart. For given collections and versions, no two ids make
      different items look alike if and only if the collections are different and do not read on from one
      another, or the versions are different and do not end on one another, or both agree. */
  lemma SeedsNameItemsExactly(c: string, v: string, c': string, v': string)
    ensures NamesItems(c, v, c', v') <==>
            (c == c' && v == v') || !CollectionsClash(c, c') || !VersionsClash(v, v')
  {
    if c == c' && v == v' {
      forall i, i' | Name(c, i, v) == Name(c', i', v') ensures i == i' { SameNameParts(c, i, i', v); }
    } else if !CollectionsClash(c, c') || !VersionsClash(v, v') {
      forall i, i' | Trimmed(i) && Trimmed(i') ensures Name(c, i, v) != Name(c', i', v') {
        NoClashNoName(c, i, v, c', i', v');
      }
    } else {
      var i, i' := ClashingNames(c, v, c', v');
    }
  }

  lemma ClashingNames(c: string, v: string, c': string, v': string) returns (i: string, i': string)
    requires CollectionsClash(c, c') && VersionsClash(v, v')
    ensures Trimmed(i) && Trimmed(i') && Name(c, i, v) == Name(c', i', v')
  {
    var b, b' := ClashingIds(c, c');
    var e, e' := ClashingEnds(v, v');
    EndedId(b, e);
    EndedId(b', e');
    i, i' := b + e, b' + e';
    NameRegrouped(c, b, e, v);
    NameRegrouped(c', b', e', v');
  }

  lemma NameRegrouped(c: string, b: string, e: string, v: string)
    ensures Name(c, b + e, v) == (c + "::" + b) + (e + "|version:" + v)
  {
  }

  lemma NoClashNoName(c: string, i: string, v: string, c': string, i': string, v': string)
    requires !CollectionsClash(c, c') || !VersionsClash(v, v')
    requires Trimmed(i) && Trimmed(i')
    ensures Name(c, i, v) != Name(c', i', v')
  {
    if Name(c, i, v) == Name(c', i', v') {
      if !CollectionsClash(c, c') {
        if |c| <= |c'| {
          CollectionsMustClash(c, i, v, c', i', v');
        } else {
          CollectionsMustClash(c', i', v', c, i, v);
        }
      } else {
        if |v| <= |v'| { VersionsMustClash(c, i, v, c', i', v'); } else { VersionsMustClash(c', i', v', c, i, v); }
      }
      assert false;
    }
  }

  /** A condition on each item by itself: with no ':' in the folded collections and no '|' in the
      stripped versions, equal seeds mean the same collection, id, version, payload digest and size. */
  lemma ItemSeedUnique(c: string, i: string, v: Option<string>, d: string, m: nat,
                       c': string, i': string, v': Option<string>, d': string, n: nat, fold: string -> string)
    requires |d| == |d'|
    requires ':' !in fold(Strip(c)) && ':' !in fold(Strip(c')) && '|' !in VersionText(v) && '|' !in VersionText(v')
    ensures ItemSeed(c, i, v, d, m, fold) == ItemSeed(c', i', v', d', n, fold) <==>
            && fold(Strip(c)) == fold(Strip(c')) && Strip(i) == Strip(i') && VersionText(v) == VersionText(v')
            && d == d' && m == n
  {
    var f, f', t, t' := fold(Strip(c)), fold(Strip(c')), VersionText(v), VersionText(v');
    ItemSeedParts(f, Strip(i), t, d, m, f', Strip(i'), t', d', n);
    PlainTextsDoNotClash(f, t, f', t');
    SeedsNameItemsExactly(f, t, f', t');
    StripTrims(i);
    StripTrims(i');
  }

  lemma PlainTextsDoNotClash(c: string, v: string, c': string, v': string)
    requires ':' !in c && ':' !in c' && '|' !in v && '|' !in v'
    ensures CollectionsClash(c, c') ==> c == c'
    ensures VersionsClash(v, v') ==> v == v'
  {
    PlainDoesNotReadOn(c, c');
    PlainDoesNotReadOn(c', c);
    PlainDoesNotEndOn(v, v');
    PlainDoesNotEndOn(v', v);
  }

  lemma PlainDoesNotReadOn(shorter: string, longer: string)
    requires ':' !in longer
    ensures !ReadsOn(shorter, longer)
  {
    if ReadsOn(shorter, longer) { ReadsOnColon(shorter, longer); }
  }

  lemma ReadsOnColon(shorter: string, longer: string)
    requires ReadsOn(shorter, longer)
    ensures ':' in longer
  {
    assert longer[|shorter|] == (longer + "::")[|shorter|] == (shorter + "::")[|shorter|] == ':';
  }

  lemma PlainDoesNotEndOn(shorter: string, longer: string)
    requires '|' !in longer
    ensures !EndsOn(shorter, longer)
  {
    if EndsOn(shorter, longer) { EndsOnBar(shorter, longer); }
  }

  lemma EndsOnBar(shorter: string, longer: string)
    requires EndsOn(shorter, longer)
    ensures '|' in longer
  {
    var cut := |longer| - |shorter| - 9;
    assert longer[cut] == longer[cut..][0] == '|';
  }

  lemma StripTrims(s: string)
    ensures Trimmed(Strip(s)) && (Trimmed(s) ==> Strip(s) == s)
  {
    LStripShorter(s);
    RStripEnd(LStrip(s));
  }

  /** The condition on ':' matters: these two items have one seed. */
  lemma ItemSeedAmbiguous(d: string, n: nat, fold: string -> string)
    requires fold("a") == "a" && fold("a::b") == "a::b"
    ensures ItemSeed("a", "b::c", None, d, n, fold) == ItemSeed("a::b", "c", None, d, n, fold)
  {
    assert Strip("a") == "a" && Strip("a::b") == "a::b" && Strip("b::c") == "b::c" && Strip("c") == "c";
    assert "a" + "::" + "b::c" == "a::b" + "::" + "c";
  }

  lemma KindsNeverCollide(id: string, m: nat, d: string, h: string, n: nat,
                          c: string, i: string, v: Option<string>, e: string, k: nat, fold: string -> string)
    ensures MessageIdSeed(id, m) != RawSeed(d, h, n)
    ensures MessageIdSeed(id, m) != ItemSeed(c, i, v, e, k, fold)
    ensures RawSeed(d, h, n) != ItemSeed(c, i, v, e, k, fold)
  {
    assert MessageIdSeed(id, m)[0] == 'm' && RawSeed(d, h, n)[0] == 'r' && ItemSeed(c, i, v, e, k, fold)[0] == 'i';
  }

  /** What a ledger key identifies. If sha256 does not collide on the two seeds, nor on the two
      payloads when those are digested, equal message fingerprints mean equal sizes, and either
      equal Message-IDs or byte-identical messages from the same source id. */
  lemma EqualMessageFingerprints(
    raw: Bytes, sid: Option<string>, mid: Option<string>, ext: Option<string>,
    raw': Bytes, sid': Option<string>, mid': Option<string>, ext': Option<string>,
    lower: string -> string, sha256: Bytes -> string, digest: string -> string)
    requires |sha256(raw)| == |sha256(raw')| && (sha256(raw) == sha256(raw') ==> raw == raw')
    requires var a := MessageSeed(raw, sid, mid, ext, lower, sha256);
             var b := MessageSeed(raw', sid', mid', ext', lower, sha256);
             digest(a) == digest(b) && (digest(a) == digest(b) ==> a == b)
    ensures |raw| == |raw'|
    ensures var n, n' := NormalizeMessageId(mid, lower), NormalizeMessageId(mid', lower);
            var id, id' := if n.Some? then n else ext, if n'.Some? then n' else ext';
            && id == id'
            && (id.None? ==>
                  raw == raw' && (if sid.Some? then sid.value else "") == (if sid'.Some? then sid'.value else ""))
  {
    var n, n' := NormalizeMessageId(mid, lower), NormalizeMessageId(mid', lower);
    var id, id' := if n.Some? then n else ext, if n'.Some? then n' else ext';
    var h, h' := if sid.Some? then sid.value else "", if sid'.Some? then sid'.value else "";
    KindsNeverCollide(if id.Some? then id.value else "", |raw|, sha256(raw'), h', |raw'|, "", "", None, "", 0, lower);
    KindsNeverCollide(if id'.Some? then id'.value else "", |raw'|, sha256(raw), h, |raw|, "", "", None, "", 0, lower);
    if id.Some? && id'.Some? { MessageIdSeedUnique(id.value, |raw|, id'.value, |raw'|); }
    else if id.None? && id'.None? { RawSeedUnique(sha256(raw), h, |raw|, sha256(raw'), h', |raw'|); }
  }
}
