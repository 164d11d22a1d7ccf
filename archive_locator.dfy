/**
 * Archive location (`find_filenames_for_station`): the status check on the
 * index page, the link extraction `re.findall(r'href="([^"]+\.zip)"', text)`,
 * and the station filter `f"_{station_id}_" in link`.
 *
 * The HTTP request itself is outside the model: the function takes the
 * response's status and text as inputs.
 */
module ArchiveLocator {
  import opened Wrappers
  import opened Seqs

  const HTTP_OK: int := 200

  /** The literal text the pattern starts with. */
  const HREF_OPEN: string := "href=\""

  /** The literal text the captured group ends with. */
  const ZIP_SUFFIX: string := ".zip"

  const ERROR_PREFIX: string := "Error while retrieving data from: "

  datatype LocatorError = ConnectionError(message: string)

  /** One match of the pattern: where it starts in the text and its captured group. */
  datatype Match = Match(start: nat, link: string) {
    /** The position just after the match's closing quote. */
    function End(): nat { start + |HREF_OPEN| + |link| + 1 }
  }

  /**
   * The pattern `href="([^"]+\.zip)"` matches at position `p` with group `link`:
   * `href="`, then one or more non-quote characters ending in `.zip`, then `"`.
   */
  ghost predicate IsMatch(body: string, p: nat, link: string)
  {
    var open := p + |HREF_OPEN|;
    open + |link| < |body| &&
    body[p..open] == HREF_OPEN &&
    body[open..open + |link|] == link &&
    body[open + |link|] == '"' &&
    |link| > |ZIP_SUFFIX| && link[|link| - |ZIP_SUFFIX|..] == ZIP_SUFFIX &&
    forall j :: 0 <= j < |link| ==> link[j] != '"'
  }

  /** Position `p` lies inside one of the matches `ms`. */
  ghost predicate Covered(ms: seq<Match>, p: nat)
  {
    exists k :: 0 <= k < |ms| && ms[k].start <= p < ms[k].End()
  }

  /**
   * What `findall` returns, from position `from` on: real matches, in text order
   * and not overlapping, such that every position where the pattern matches lies
   * inside one of them.
   */
  ghost predicate IsFindAll(body: string, from: nat, ms: seq<Match>)
  {
    AllMatches(body, from, ms) && InOrder(ms) && CoversMatches(body, from, ms)
  }

  /** Element `k` of `ms` is a match starting at or after `from`. */
  ghost predicate MatchFrom(body: string, from: nat, ms: seq<Match>, k: int)
  {
    0 <= k < |ms| && from <= ms[k].start && IsMatch(body, ms[k].start, ms[k].link)
  }

  /** Every element is a match starting at or after `from`. */
  ghost predicate AllMatches(body: string, from: nat, ms: seq<Match>)
  {
    forall k :: 0 <= k < |ms| ==> MatchFrom(body, from, ms, k)
  }

  /** The matches are in text order and do not overlap. */
  ghost predicate InOrder(ms: seq<Match>)
  {
    forall j, k :: 0 <= j < k < |ms| ==> ms[j].End() <= ms[k].start
  }

  /** Every position at or after `from` where the pattern matches lies inside a match. */
  ghost predicate CoversMatches(body: string, from: nat, ms: seq<Match>)
  {
    forall p, link :: from <= p && IsMatch(body, p, link) ==> Covered(ms, p)
  }

  /** The first '"' at or after `i`, or the end of the text. */
  function NextQuote(body: string, i: nat): (q: nat)
    requires i <= |body|
    ensures i <= q <= |body|
    ensures forall k :: i <= k < q ==> body[k] != '"'
    ensures q < |body| ==> body[q] == '"'
    decreases |body| - i
  {
    if i == |body| || body[i] == '"' then i else NextQuote(body, i + 1)
  }

  /**
   * The regular-expression engine's attempt at position `p`: `[^"]+` runs to the
   * next quote, so the group is everything up to it, and it must end in `.zip`.
   */
  function MatchAt(body: string, p: nat): (r: Option<string>)
    requires p <= |body|
    ensures r.Some? ==> IsMatch(body, p, r.value)
  {
    var open := p + |HREF_OPEN|;
    if open <= |body| && body[p..open] == HREF_OPEN then
      var q := NextQuote(body, open);
      if q < |body| && q > open + |ZIP_SUFFIX| && body[q - |ZIP_SUFFIX|..q] == ZIP_SUFFIX then
        Some(body[open..q])
      else None
    else None
  }

  /** The attempt at `p` misses no match and picks the only group possible there. */
  lemma MatchAtComplete(body: string, p: nat, link: string)
    requires p <= |body| && IsMatch(body, p, link)
    ensures MatchAt(body, p) == Some(link)
  {
    var open := p + |HREF_OPEN|;
    var q := open + |link|;
    forall k | open <= k < q ensures body[k] != '"' {
      assert body[k] == link[k - open];
    }
    NextQuoteAt(body, open, q);
    assert body[q - |ZIP_SUFFIX|..q] == link[|link| - |ZIP_SUFFIX|..];
  }

  lemma {:induction false} NextQuoteAt(body: string, i: nat, q: nat)
    requires i <= q < |body| && body[q] == '"'
    requires forall k :: i <= k < q ==> body[k] != '"'
    ensures NextQuote(body, i) == q
    decreases q - i
  {
    if i < q {
      NextQuoteAt(body, i + 1, q);
    }
  }

  /** `findall`'s scan from position `i`: try a match, resume after it or one position on. */
  function Scan(body: string, i: nat): (ms: seq<Match>)
    requires i <= |body|
    ensures forall k :: 0 <= k < |ms| ==> i <= ms[k].start < |body|
    ensures forall k :: 0 < k < |ms| ==> ms[k - 1].End() <= ms[k].start
    decreases |body| - i
  {
    if i == |body| then []
    else
      match MatchAt(body, i)
      case None => Scan(body, i + 1)
      case Some(link) =>
        var m := Match(i, link);
        var rest := Scan(body, m.End());
        assert forall k :: 0 < k < |[m] + rest| ==> ([m] + rest)[k] == rest[k - 1];
        [m] + rest
  }

  /** The scan returns the leftmost-first, non-overlapping matches that `findall` promises. */
  lemma {:induction false} ScanFindsAll(body: string, i: nat)
    requires i <= |body|
    ensures IsFindAll(body, i, Scan(body, i))
    decreases |body| - i
  {
    if i < |body| {
      match MatchAt(body, i)
      case None =>
        assert Scan(body, i) == Scan(body, i + 1);
        ScanFindsAll(body, i + 1);
        SkipPosition(body, i, Scan(body, i + 1));
      case Some(link) =>
        var m := Match(i, link);
        assert Scan(body, i) == [m] + Scan(body, m.End());
        ScanFindsAll(body, m.End());
        PrependMatch(body, m, Scan(body, m.End()));
    }
  }

  /** Where the pattern does not match at `i`, a scan from `i + 1` is a scan from `i`. */
  lemma SkipPosition(body: string, i: nat, ms: seq<Match>)
    requires i < |body| && MatchAt(body, i).None?
    requires IsFindAll(body, i + 1, ms)
    ensures IsFindAll(body, i, ms)
  {
    forall k | 0 <= k < |ms| ensures MatchFrom(body, i, ms, k) {
      assert MatchFrom(body, i + 1, ms, k);
    }
    forall link | IsMatch(body, i, link) ensures false {
      MatchAtComplete(body, i, link);
    }
  }

  /** A match at `i` followed by a scan from its end is a scan from `i`. */
  lemma PrependMatch(body: string, m: Match, rest: seq<Match>)
    requires IsMatch(body, m.start, m.link)
    requires IsFindAll(body, m.End(), rest)
    ensures IsFindAll(body, m.start, [m] + rest)
  {
    var ms := [m] + rest;
    assert forall k :: 0 < k < |ms| ==> ms[k] == rest[k - 1];
    forall k | 0 < k < |ms| ensures MatchFrom(body, m.start, ms, k) && m.End() <= ms[k].start {
      assert MatchFrom(body, m.End(), rest, k - 1);
    }
    assert AllMatches(body, m.start, ms);
    assert InOrder(ms) by {
      assert InOrder(rest);
    }
    assert CoversMatches(body, m.start, ms) by {
      forall p, l | m.start <= p && IsMatch(body, p, l) ensures Covered(ms, p) {
        CoveredAfterPrepend(body, m, rest, p, l);
      }
    }
  }

  lemma CoveredAfterPrepend(body: string, m: Match, rest: seq<Match>, p: nat, l: string)
    requires CoversMatches(body, m.End(), rest)
    requires m.start <= p && IsMatch(body, p, l)
    ensures Covered([m] + rest, p)
  {
    var ms := [m] + rest;
    if p < m.End() {
      assert ms[0].start <= p < ms[0].End();
    } else {
      assert Covered(rest, p);
      var k :| 0 <= k < |rest| && rest[k].start <= p < rest[k].End();
      assert ms[k + 1] == rest[k];
    }
  }

  /** A group the pattern can capture: non-empty before `.zip`, no quote in it. */
  predicate IsZipLink(l: string)
  {
    |l| > |ZIP_SUFFIX| && l[|l| - |ZIP_SUFFIX|..] == ZIP_SUFFIX &&
    forall j :: 0 <= j < |l| ==> l[j] != '"'
  }

  /** The captured groups, in text order: `findall(r'href="([^"]+\.zip)"', body)`. */
  function FindZipLinks(body: string): (links: seq<string>)
    ensures forall l :: l in links ==> IsZipLink(l) && Contains(body, HREF_OPEN + l + "\"")
  {
    var ms := Scan(body, 0);
    ScanFindsAll(body, 0);
    LinksInText(body, ms);
    seq(|ms|, k requires 0 <= k < |ms| => ms[k].link)
  }

  /** Each group the regex engine reports is a `.zip` link standing in the text as `href="link"`. */
  lemma LinksInText(body: string, ms: seq<Match>)
    requires AllMatches(body, 0, ms)
    ensures forall k :: 0 <= k < |ms| ==> IsZipLink(ms[k].link) && Contains(body, HREF_OPEN + ms[k].link + "\"")
  {
    forall k | 0 <= k < |ms| ensures IsZipLink(ms[k].link) && Contains(body, HREF_OPEN + ms[k].link + "\"") {
      assert MatchFrom(body, 0, ms, k);
      MatchInText(body, ms[k].start, ms[k].link);
    }
  }

  /**
   * The extracted links are the groups of the one list of matches `findall`
   * describes, and each is a `.zip` name without quotes that stands in the
   * text as `href="` + link + `"`.
   */
  lemma FindZipLinksSpec(body: string, ms: seq<Match>)
    requires IsFindAll(body, 0, ms)
    ensures FindZipLinks(body) == seq(|ms|, k requires 0 <= k < |ms| => ms[k].link)
    ensures forall l :: l in FindZipLinks(body) ==>
      IsZipLink(l) && Contains(body, HREF_OPEN + l + "\"")
  {
    ScanFindsAll(body, 0);
    FindAllUnique(body, 0, Scan(body, 0), ms);
    var links := FindZipLinks(body);
    forall l | l in links ensures IsZipLink(l) && Contains(body, HREF_OPEN + l + "\"") {
      var k :| 0 <= k < |links| && links[k] == l;
      assert MatchFrom(body, 0, ms, k);
      MatchInText(body, ms[k].start, ms[k].link);
    }
  }

  /** A match is the text `href="` + group + `"` at its position. */
  lemma MatchInText(body: string, p: nat, link: string)
    requires IsMatch(body, p, link)
    ensures OccursAt(body, HREF_OPEN + link + "\"", p)
  {
    var open := p + |HREF_OPEN|;
    assert body[p..open + |link| + 1] == body[p..open] + body[open..open + |link|] + [body[open + |link|]];
  }

  /** There is only one list of matches of the kind `findall` returns. */
  lemma {:induction false} FindAllUnique(body: string, from: nat, a: seq<Match>, b: seq<Match>)
    requires IsFindAll(body, from, a) && IsFindAll(body, from, b)
    ensures a == b
    decreases |a| + |b|
  {
    BothEmptyOrNot(body, from, a, b);
    if a != [] {
      FirstMatchAgrees(body, from, a, b);
      TailIsFindAll(body, from, a);
      TailIsFindAll(body, from, b);
      FindAllUnique(body, a[0].End(), a[1..], b[1..]);
      assert a == [a[0]] + a[1..] && b == [b[0]] + b[1..];
    }
  }

  /** Either list is empty exactly when the pattern never matches. */
  lemma BothEmptyOrNot(body: string, from: nat, a: seq<Match>, b: seq<Match>)
    requires IsFindAll(body, from, a) && IsFindAll(body, from, b)
    ensures a == [] <==> b == []
  {
    if a != [] {
      assert MatchFrom(body, from, a, 0);
      assert Covered(b, a[0].start);
    }
    if b != [] {
      assert MatchFrom(body, from, b, 0);
      assert Covered(a, b[0].start);
    }
  }

  /** Two such lists begin with the same match: the leftmost one. */
  lemma FirstMatchAgrees(body: string, from: nat, a: seq<Match>, b: seq<Match>)
    requires IsFindAll(body, from, a) && IsFindAll(body, from, b)
    requires a != [] && b != []
    ensures a[0] == b[0]
  {
    assert MatchFrom(body, from, a, 0) && MatchFrom(body, from, b, 0);
    assert Covered(b, a[0].start) && Covered(a, b[0].start);
    FirstStartsAgree(a, b);
    MatchAtComplete(body, a[0].start, a[0].link);
    MatchAtComplete(body, a[0].start, b[0].link);
  }

  /** Each list's first match lying inside the other's matches forces equal starts. */
  lemma FirstStartsAgree(a: seq<Match>, b: seq<Match>)
    requires InOrder(a) && InOrder(b) && a != [] && b != []
    requires Covered(b, a[0].start) && Covered(a, b[0].start)
    ensures a[0].start == b[0].start
  {
    var j :| 0 <= j < |a| && a[j].start <= b[0].start < a[j].End();
    var k :| 0 <= k < |b| && b[k].start <= a[0].start < b[k].End();
    StartsIncrease(a, j);
    StartsIncrease(b, k);
  }

  lemma StartsIncrease(a: seq<Match>, j: nat)
    requires InOrder(a) && j < |a|
    ensures a[0].start <= a[j].start
  {
    if j > 0 {
      assert a[0].End() <= a[j].start;
    }
  }

  /** After the first match, the rest is the list of matches from its end. */
  lemma TailIsFindAll(body: string, from: nat, a: seq<Match>)
    requires IsFindAll(body, from, a) && a != []
    ensures IsFindAll(body, a[0].End(), a[1..])
  {
    var e := a[0].End();
    var t := a[1..];
    assert forall k :: 0 <= k < |t| ==> t[k] == a[k + 1];
    forall k | 0 <= k < |t| ensures MatchFrom(body, e, t, k) {
      assert MatchFrom(body, from, a, k + 1);
      assert a[0].End() <= a[k + 1].start;
    }
    assert MatchFrom(body, from, a, 0);
    forall p, l | e <= p && IsMatch(body, p, l) ensures Covered(t, p) {
      var i :| 0 <= i < |a| && a[i].start <= p < a[i].End();
      assert i == 0 || a[0].End() <= a[i].start;
      assert t[i - 1].start <= p < t[i - 1].End();
    }
  }

  /** The token a link must contain to belong to a station. */
  function StationToken(stationId: string): (t: string)
    ensures |t| == |stationId| + 2 && t[0] == '_' && t[|t| - 1] == '_'
    ensures t[1..|t| - 1] == stationId
  {
    "_" + stationId + "_"
  }

  predicate MentionsStation(link: string, stationId: string)
  {
    Contains(link, StationToken(stationId))
  }

  /**
   * `find_filenames_for_station` on a received response: a status other than 200
   * is a ConnectionError naming the URL; otherwise the extracted links that
   * contain `_<station_id>_`, in text order (possibly none).
   */
  function FindFilenamesForStation(status: int, url: string, body: string, stationId: string)
    : (r: Result<seq<string>, LocatorError>)
    ensures r.Failure? <==> status != HTTP_OK
    ensures r.Failure? ==>
      |r.error.message| >= |url| && r.error.message[|r.error.message| - |url|..] == url
  {
    if status != HTTP_OK then
      Failure(ConnectionError(ERROR_PREFIX + url))
    else
      Success(Filter(FindZipLinks(body), l => MentionsStation(l, stationId)))
  }

  /**
   * On a 200 response the result is the subsequence of the extracted links that
   * contain `_<station_id>_`: every such link, as often as it was extracted, and
   * only those, in text order.
   */
  lemma StationLinks(url: string, body: string, stationId: string)
    ensures FindFilenamesForStation(HTTP_OK, url, body, stationId).Success?
    ensures IsSubsequence(FindFilenamesForStation(HTTP_OK, url, body, stationId).value, FindZipLinks(body))
    ensures forall l :: l in FindFilenamesForStation(HTTP_OK, url, body, stationId).value <==>
      l in FindZipLinks(body) && Contains(l, "_" + stationId + "_")
    ensures forall l :: (multiset(FindFilenamesForStation(HTTP_OK, url, body, stationId).value)[l] ==
      if Contains(l, "_" + stationId + "_") then multiset(FindZipLinks(body))[l] else 0)
    ensures forall l :: l in FindFilenamesForStation(HTTP_OK, url, body, stationId).value ==>
      IsZipLink(l) && Contains(body, HREF_OPEN + l + "\"")
  {
    ScanFindsAll(body, 0);
    FindZipLinksSpec(body, Scan(body, 0));
  }

  // ----- Archive names made of fields -----

  /** A name made of fields joined by underscores, the way the DWD names its archives. */
  function JoinFields(fields: seq<string>): string
  {
    if fields == [] then []
    else if |fields| == 1 then fields[0]
    else fields[0] + "_" + JoinFields(fields[1..])
  }

  /** No field contains an underscore. */
  predicate PlainFields(fields: seq<string>)
  {
    forall k :: 0 <= k < |fields| ==> '_' !in fields[k]
  }

  /** The joined name starts with the first field; the first underscore, if any, follows it. */
  lemma JoinShape(fields: seq<string>)
    requires fields != [] && PlainFields(fields)
    ensures |fields[0]| <= |JoinFields(fields)|
    ensures forall j :: 0 <= j < |fields[0]| ==> JoinFields(fields)[j] == fields[0][j] != '_'
    ensures |fields| == 1 ==> '_' !in JoinFields(fields)
    ensures |fields| > 1 ==> JoinFields(fields) == fields[0] + "_" + JoinFields(fields[1..])
  {
  }

  /** Where the token of a station occurs in a joined name, an inner field is that station's ID. */
  lemma {:induction false} TokenIsField(fields: seq<string>, stationId: string, i: int)
    requires fields != [] && PlainFields(fields) && '_' !in stationId
    requires OccursAt(JoinFields(fields), StationToken(stationId), i)
    ensures exists k :: 0 < k < |fields| - 1 && fields[k] == stationId
    decreases |fields|
  {
    var s := JoinFields(fields);
    var t := StationToken(stationId);
    var n := |stationId|;
    var f0 := fields[0];
    assert s[i] == '_' && s[i + n + 1] == '_' by {
      assert s[i..i + |t|][0] == t[0] && s[i..i + |t|][|t| - 1] == t[|t| - 1];
    }
    JoinShape(fields);
    assert i >= |f0| && |fields| > 1;
    var rest := fields[1..];
    var r := JoinFields(rest);
    assert PlainFields(rest) by {
      assert forall k :: 0 <= k < |rest| ==> rest[k] == fields[k + 1];
    }
    JoinShape(rest);
    if i == |f0| {
      forall j | 0 <= j < n ensures r[j] == stationId[j] {
        assert s[i..i + |t|][j + 1] == t[j + 1];
      }
      assert r[n] == '_';
      var g := rest[0];
      assert |rest| > 1;
      assert r[|g|] == '_';
      assert n == |g|;
      assert g == stationId;
      assert fields[1] == stationId;
    } else {
      var i' := i - |f0| - 1;
      assert s[i..i + |t|] == r[i'..i' + |t|];
      TokenIsField(rest, stationId, i');
      var k' :| 0 < k' < |rest| - 1 && rest[k'] == stationId;
      assert fields[k' + 1] == stationId;
    }
  }

  /** An inner field equal to a station's ID puts that station's token in the joined name. */
  lemma {:induction false} FieldIsToken(fields: seq<string>, stationId: string, k: int)
    requires 0 < k < |fields| - 1 && fields[k] == stationId
    ensures MentionsStation(JoinFields(fields), stationId)
    decreases k
  {
    var s := JoinFields(fields);
    var t := StationToken(stationId);
    var f0 := fields[0];
    var rest := fields[1..];
    var r := JoinFields(rest);
    assert s == f0 + "_" + r;
    if k == 1 {
      var tail := JoinFields(rest[1..]);
      assert r == stationId + "_" + tail;
      assert s == f0 + t + tail;
      assert s[|f0|..|f0| + |t|] == t;
      assert OccursAt(s, t, |f0|);
    } else {
      assert rest[k - 1] == stationId;
      FieldIsToken(rest, stationId, k - 1);
      var j :| 0 <= j <= |r| - |t| && OccursAt(r, t, j);
      OccursAfterPrefix(f0 + "_", r, t, j);
      assert (f0 + "_") + r == s;
      assert OccursAt(s, t, |f0| + 1 + j);
    }
  }

  /**
   * For an archive name made of underscore-free fields, the station filter keeps
   * it exactly when one of its inner fields is the station ID. A field that only
   * begins with the ID (`017660` for `01766`) does not count, and neither does
   * the first or the last field.
   */
  lemma SelectsByIdField(fields: seq<string>, stationId: string)
    requires PlainFields(fields) && '_' !in stationId
    ensures MentionsStation(JoinFields(fields), stationId) <==>
      exists k :: 0 < k < |fields| - 1 && fields[k] == stationId
  {
    var s := JoinFields(fields);
    var t := StationToken(stationId);
    if fields != [] && MentionsStation(s, stationId) {
      var i :| 0 <= i <= |s| - |t| && OccursAt(s, t, i);
      TokenIsField(fields, stationId, i);
    }
    if exists k :: 0 < k < |fields| - 1 && fields[k] == stationId {
      var k :| 0 < k < |fields| - 1 && fields[k] == stationId;
      FieldIsToken(fields, stationId, k);
    }
  }

  /** The historical temperature archive of station 01766 is kept for that station. */
  lemma KeepsOwnArchive()
    ensures MentionsStation(JoinFields(["10minutenwerte", "TU", "01766", "19930101", "20231231", "hist.zip"]), "01766")
  {
    var fields := ["10minutenwerte", "TU", "01766", "19930101", "20231231", "hist.zip"];
    FieldIsToken(fields, "01766", 2);
  }

  /** The archive of station 017660 is not taken for station 01766. */
  lemma RejectsLongerId()
    ensures !MentionsStation(JoinFields(["10minutenwerte", "TU", "017660", "19930101", "20231231", "hist.zip"]), "01766")
  {
    var fields := ["10minutenwerte", "TU", "017660", "19930101", "20231231", "hist.zip"];
    SelectsByIdField(fields, "01766");
  }

  /** A station ID in the first or last field is not taken either. */
  lemma RejectsOuterField()
    ensures !MentionsStation(JoinFields(["01766", "TU", "hist.zip"]), "01766")
    ensures !MentionsStation(JoinFields(["TU", "01766"]), "01766")
  {
    SelectsByIdField(["01766", "TU", "hist.zip"], "01766");
    SelectsByIdField(["TU", "01766"], "01766");
  }
}
