/**
 * backend/src/utils/etag.ts: strong ETags from a content digest, weak ETags
 * from size and modification time, and `If-None-Match` matching.
 *
 * The matching is the simplified form of section 13.1.2 of RFC 9110 the
 * source implements: the header is split at commas, every member is
 * trimmed, and a member matches when it is `*` or exactly the tag (no weak
 * comparison in the sense of section 8.8.3.2).
 */
module ETag {
  import opened Base

  /**
   * `generateETag`: the hex md5 digest of the data, in double quotes. The
   * digest is a parameter standing for `createHash('md5')...digest('hex')`.
   */
  function GenerateETag(digest: seq<byte> -> string, data: seq<byte>): (r: string)
    ensures |r| >= 2 && r[0] == '"' && r[|r| - 1] == '"'
    ensures r[1..|r| - 1] == digest(data)
  {
    "\"" + digest(data) + "\""
  }

  /** Two contents get the same strong ETag exactly when their digests agree. */
  lemma GenerateETagSameIffSameDigest(digest: seq<byte> -> string, a: seq<byte>, b: seq<byte>)
    ensures GenerateETag(digest, a) == GenerateETag(digest, b) <==> digest(a) == digest(b)
  {
    var ea, eb := GenerateETag(digest, a), GenerateETag(digest, b);
    if ea == eb {
      assert ea[1..|ea| - 1] == eb[1..|eb| - 1];
    }
  }

  /** `generateWeakETag`: `W/"<size in hex>-<mtime in hex>"`. */
  function GenerateWeakETag(size: nat, mtime: nat): (r: string)
    ensures StartsWith(r, "W/\"") && r[|r| - 1] == '"'
  {
    "W/\"" + NatToHex(size) + "-" + NatToHex(mtime) + "\""
  }

  /** Weak ETags of different (size, mtime) pairs differ: hex digits contain no `-`. */
  lemma {:induction false} GenerateWeakETagInjective(size1: nat, mtime1: nat, size2: nat, mtime2: nat)
    requires GenerateWeakETag(size1, mtime1) == GenerateWeakETag(size2, mtime2)
    ensures size1 == size2 && mtime1 == mtime2
  {
    var h1, m1 := NatToHex(size1), NatToHex(mtime1);
    var h2, m2 := NatToHex(size2), NatToHex(mtime2);
    var e1, e2 := GenerateWeakETag(size1, mtime1), GenerateWeakETag(size2, mtime2);
    assert e1[3..|e1| - 1] == h1 + "-" + m1;
    assert e2[3..|e2| - 1] == h2 + "-" + m2;
    assert '-' !in h1 && '-' !in m1 && '-' !in h2 && '-' !in m2;
    SplitConcat(h1, m1, '-');
    SplitConcat(h2, m2, '-');
    SplitNoSeparator(m1, '-');
    SplitNoSeparator(m2, '-');
    var mid := e1[3..|e1| - 1];
    assert Split(mid, '-') == [h1, m1];
    assert Split(mid, '-') == [h2, m2];
    NatToBaseInjective(size1, size2, 16);
    NatToBaseInjective(mtime1, mtime2, 16);
  }

  /** Trims every member of a list. */
  function TrimAll(parts: seq<string>): (r: seq<string>)
    ensures |r| == |parts|
    ensures forall k :: 0 <= k < |r| ==> r[k] == Trim(parts[k])
    decreases |parts|
  {
    if parts == [] then [] else [Trim(parts[0])] + TrimAll(parts[1..])
  }

  /** `ifNoneMatch.split(',').map(t => t.trim())`. */
  function Tokens(header: string): seq<string> {
    TrimAll(Split(header, ','))
  }

  /** `matchesETag(etag, ifNoneMatch)`; None is an absent header. */
  predicate MatchesETag(etag: string, ifNoneMatch: Option<string>) {
    match ifNoneMatch
    case None => false
    case Some(h) => h != "" && ("*" in Tokens(h) || etag in Tokens(h))
  }

  /** An absent or empty header never matches. */
  lemma AbsentHeaderNeverMatches(etag: string)
    ensures !MatchesETag(etag, None)
    ensures !MatchesETag(etag, Some(""))
  {
  }

  /** A header member to be compared: trimmed and free of commas. */
  predicate IsMember(t: string) {
    IsTrimmed(t) && ',' !in t
  }

  /** Whitespace that may precede a member. */
  predicate IsPadding(w: string) {
    forall k :: 0 <= k < |w| ==> IsJsSpace(w[k])
  }

  function Pad(pads: seq<string>, ts: seq<string>): (r: seq<string>)
    requires |pads| == |ts|
    ensures |r| == |ts|
    ensures forall k :: 0 <= k < |r| ==> r[k] == pads[k] + ts[k]
  {
    seq(|ts|, k requires 0 <= k < |ts| => pads[k] + ts[k])
  }

  /**
   * A header written as a comma-separated list of members, each optionally
   * preceded by whitespace, tokenises back to exactly those members.
   */
  lemma TokensOfList(pads: seq<string>, ts: seq<string>)
    requires |pads| == |ts| && ts != []
    requires forall k :: 0 <= k < |ts| ==> IsMember(ts[k]) && IsPadding(pads[k])
    ensures Tokens(Join(Pad(pads, ts), ",")) == ts
  {
    var parts := Pad(pads, ts);
    forall k | 0 <= k < |parts| ensures ',' !in parts[k] {
      assert parts[k] == pads[k] + ts[k];
    }
    SplitJoin(parts, ',');
    forall k | 0 <= k < |ts| ensures Trim(parts[k]) == ts[k] {
      TrimLeadingSpaces(pads[k], ts[k]);
    }
  }

  /**
   * On such a list the header matches exactly when one of its members is
   * `*` or the tag itself.
   */
  lemma MatchesList(etag: string, pads: seq<string>, ts: seq<string>)
    requires |pads| == |ts| && ts != []
    requires forall k :: 0 <= k < |ts| ==> IsMember(ts[k]) && IsPadding(pads[k])
    requires Join(Pad(pads, ts), ",") != ""
    ensures MatchesETag(etag, Some(Join(Pad(pads, ts), ","))) <==> ("*" in ts || etag in ts)
  {
    TokensOfList(pads, ts);
  }

  /** A single member header matches iff it is `*` or the tag. */
  lemma MatchesSingle(etag: string, t: string)
    requires IsMember(t) && t != ""
    ensures MatchesETag(etag, Some(t)) <==> (t == "*" || t == etag)
  {
    SplitNoSeparator(t, ',');
    TrimOfTrimmed(t);
    assert Tokens(t) == [t];
  }

  /** `*` matches every tag. */
  lemma WildcardMatchesEverything(etag: string)
    ensures MatchesETag(etag, Some("*"))
  {
    MatchesSingle(etag, "*");
  }

  /** The comparison is exact: a weak tag does not match its strong counterpart. */
  lemma WeakDoesNotMatchStrong(tag: string)
    requires ',' !in tag
    ensures !MatchesETag("\"" + tag + "\"", Some("W/\"" + tag + "\""))
    ensures !MatchesETag("W/\"" + tag + "\"", Some("\"" + tag + "\""))
  {
    var strong := "\"" + tag + "\"";
    var weak := "W/\"" + tag + "\"";
    assert strong[0] != weak[0];
    MatchesSingle(strong, weak);
    MatchesSingle(weak, strong);
  }

  /** The examples of the etag tests. */
  lemma ExactTagMatches()
    ensures MatchesETag("\"abc123\"", Some("\"abc123\""))
  {
    MatchesSingle("\"abc123\"", "\"abc123\"");
  }

  lemma DifferentTagDoesNotMatch()
    ensures !MatchesETag("\"abc123\"", Some("\"xyz789\""))
  {
    MatchesSingle("\"abc123\"", "\"xyz789\"");
  }

  lemma ExampleListParts()
    ensures "\"xyz\", \"abc123\", \"def\"" == "\"xyz\"" + "," + " \"abc123\"" + "," + " \"def\""
  {
  }

  lemma SplitExampleList()
    ensures Split("\"xyz\", \"abc123\", \"def\"", ',') == ["\"xyz\"", " \"abc123\"", " \"def\""]
  {
    ExampleListParts();
    SplitThreeParts("\"xyz\"", " \"abc123\"", " \"def\"", ',');
  }

  lemma TrimExampleMember()
    ensures Trim(" \"abc123\"") == "\"abc123\""
  {
    assert " \"abc123\"" == " " + "\"abc123\"";
    TrimLeadingSpaces(" ", "\"abc123\"");
  }

  lemma MultipleTagsExample()
    ensures MatchesETag("\"abc123\"", Some("\"xyz\", \"abc123\", \"def\""))
  {
    var h := "\"xyz\", \"abc123\", \"def\"";
    SplitExampleList();
    TrimExampleMember();
    assert Tokens(h)[1] == "\"abc123\"";
  }
}
