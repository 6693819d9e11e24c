/** When two starts count as the same: Rust compares fields, Node compares one printed
    string, Go compares a record of strings. Rust and Go decide the same equality; Node,
    which does not trim the instance id, a finer one. Ids are given here as the caller gives them. */
module Signatures {
  import opened Optional
  import opened CanonicalText
  import opened CanonicalJson
  import opened Redaction
  import opened RustResolve

  // ---- Rust: the fields themselves ----

  datatype Structural = Structural(mode: Mode, url: Option<string>, key: Option<string>,
                                   allowedHosts: Option<seq<string>>, instanceId: Option<string>,
                                   controlPoints: Option<map<string, bool>>)

  /** `instanceId` is trimmed already. */
  function RustSignature(r: Resolved, instanceId: Option<string>): Structural {
    Structural(r.mode, r.url, r.key, r.allowedHosts, instanceId,
               if r.mode == Local then Some(r.controlPoints) else None)
  }

  // ---- Node: one string ----

  function TextOrNull(t: Option<string>): Json { if t.Some? then JString(t.value) else JNull }

  function HostsOrNull(t: Option<seq<string>>): Json {
    if t.Some? then JArray(seq(|t.value|, i requires 0 <= i < |t.value| => JString(t.value[i]))) else JNull
  }

  function PointsJson(m: map<string, bool>): Json { JObject(map k | k in m :: JBool(m[k])) }

  function NodeRecord(r: Resolved, instanceId: Option<string>): Json {
    var common: map<string, Json> := map[
      "mode" := JString(if r.mode == Local then "local" else "remote"),
      "url" := TextOrNull(r.url),
      "key" := TextOrNull(r.key),
      "allowedHosts" := HostsOrNull(r.allowedHosts),
      "instanceId" := TextOrNull(instanceId)];
    JObject(if r.mode == Local then common["controlPoints" := PointsJson(r.controlPoints)] else common)
  }

  ghost function NodeSignature(r: Resolved, instanceId: Option<string>): string { Print(NodeRecord(r, instanceId)) }

  lemma HostsInjective(a: Option<seq<string>>, b: Option<seq<string>>)
    requires HostsOrNull(a) == HostsOrNull(b)
    ensures a == b
  {
    if a.Some? {
      var x, y := HostsOrNull(a).items, HostsOrNull(b).items;
      assert b.Some? && |a.value| == |x| == |y| == |b.value|;
      forall i | 0 <= i < |a.value| ensures a.value[i] == b.value[i] {
        assert x[i] == JString(a.value[i]) && y[i] == JString(b.value[i]);
      }
      assert a.value == b.value;
    }
  }

  lemma PointsInjective(a: map<string, bool>, b: map<string, bool>)
    requires PointsJson(a) == PointsJson(b)
    ensures a == b
  {
    var x, y := PointsJson(a).fields, PointsJson(b).fields;
    assert a.Keys == x.Keys == y.Keys == b.Keys;
    forall k | k in a ensures a[k] == b[k] { assert x[k] == JBool(a[k]) && y[k] == JBool(b[k]); }
  }

  lemma NodeRecordFinite(r: Resolved, instanceId: Option<string>)
    ensures Finite(NodeRecord(r, instanceId))
  {
    var hosts, points := HostsOrNull(r.allowedHosts), PointsJson(r.controlPoints);
    assert Finite(hosts) && Finite(points);
  }

  lemma NodeFields(r: Resolved, i: Option<string>)
    ensures var f := NodeRecord(r, i).fields;
            && f.Keys >= {"mode", "url", "key", "allowedHosts", "instanceId"}
            && f["mode"] == JString(if r.mode == Local then "local" else "remote")
            && f["url"] == TextOrNull(r.url) && f["key"] == TextOrNull(r.key)
            && f["allowedHosts"] == HostsOrNull(r.allowedHosts) && f["instanceId"] == TextOrNull(i)
            && (r.mode == Local ==> "controlPoints" in f && f["controlPoints"] == PointsJson(r.controlPoints))
  {
  }

  lemma NodeRecordInjective(r: Resolved, i: Option<string>, s: Resolved, j: Option<string>)
    requires NodeRecord(r, i) == NodeRecord(s, j)
    ensures RustSignature(r, i) == RustSignature(s, j)
  {
    hide NodeRecord, HostsOrNull, PointsJson;
    NodeFields(r, i);
    NodeFields(s, j);
    assert r.mode == s.mode by { assert "local" != "remote"; }
    HostsInjective(r.allowedHosts, s.allowedHosts);
    if r.mode == Local { PointsInjective(r.controlPoints, s.controlPoints); }
  }

  /** Rust's comparison of two starts, with the ids as their callers gave them. */
  predicate RustSame(r: Resolved, i: Option<string>, s: Resolved, j: Option<string>) {
    RustSignature(r, Trimmed(i)) == RustSignature(s, Trimmed(j))
  }

  /** Node's one printed string keeps two starts together exactly when Rust's fields do and the ids are the
      same before trimming. */
  lemma NodeDecidesStructure(r: Resolved, i: Option<string>, s: Resolved, j: Option<string>)
    ensures NodeSignature(r, i) == NodeSignature(s, j) <==> RustSame(r, i, s, j) && i == j
  {
    hide Print;
    NodeRecordFinite(r, i);
    NodeRecordFinite(s, j);
    PrintInjective(NodeRecord(r, i), NodeRecord(s, j));
    if NodeRecord(r, i) == NodeRecord(s, j) { NodeRecordInjective(r, i, s, j); }
  }

  /** Node and Rust disagree about two starts exactly when these differ in nothing but whitespace around the id. */
  lemma NodeFinerThanRust(r: Resolved, i: Option<string>, s: Resolved, j: Option<string>)
    ensures (NodeSignature(r, i) == NodeSignature(s, j)) != RustSame(r, i, s, j)
            <==> RustSignature(r, None) == RustSignature(s, None) && Trimmed(i) == Trimmed(j) && i != j
  {
    hide Print, Trimmed, NodeSignature;
    NodeDecidesStructure(r, i, s, j);
  }

  /** Two such starts: a padded id, and an empty one. */
  lemma PaddedIdApart(r: Resolved)
    ensures RustSame(r, Some(" a"), r, Some("a")) && NodeSignature(r, Some(" a")) != NodeSignature(r, Some("a"))
    ensures RustSame(r, Some(""), r, None) && NodeSignature(r, Some("")) != NodeSignature(r, None)
  {
    hide Print, NodeSignature, RustSignature, Trimmed;
    PaddedTrims();
    assert " a" != "a" by { assert |" a"| != |"a"|; }
    NodeDecidesStructure(r, Some(" a"), r, Some("a"));
    NodeDecidesStructure(r, Some(""), r, None);
  }

  lemma PaddedTrims()
    ensures Trimmed(Some(" a")) == Trimmed(Some("a")) && Trimmed(Some("")) == Trimmed(None)
  {
    hide RunLen;
    RunLenIs(White, " a", 1);
    RunLenIs(White, "a", 0);
    RunLenIs(White, "", 0);
    assert " a"[1..] == "a" == "a"[0..];
  }

  // ---- Go: a record of strings ----

  /** Each point as a Go-quoted key, its value, and a semicolon, in key order. */
  function PointsText(printable: char -> bool, points: map<string, bool>, keys: seq<string>): string
    requires forall k :: k in keys ==> k in points
  {
    if keys == [] then ""
    else
      Quoted(c => GoEscape(printable, c), keys[0]) + ("=" + ((if points[keys[0]] then "true;" else "false;")
      + PointsText(printable, points, keys[1..])))
  }

  function Field(printable: char -> bool, key: string, value: bool): string {
    Quoted(c => GoEscape(printable, c), key) + "=" + (if value then "true;" else "false;")
  }

  lemma PointsStep(printable: char -> bool, points: map<string, bool>, keys: seq<string>, i: nat)
    requires (forall k :: k in keys ==> k in points) && i < |keys|
    ensures PointsText(printable, points, keys[i..])
            == Field(printable, keys[i], points[keys[i]]) + PointsText(printable, points, keys[i + 1..])
  {
    hide GoEscape, Quoted;
    var rest := keys[i..];
    assert rest[0] == keys[i] && rest[1..] == keys[i + 1..];
  }

  /** The loop of `controlPointsSignature`, over the sorted keys. */
  method ControlPointsSignature(printable: char -> bool, points: map<string, bool>, keys: seq<string>) returns (s: string)
    requires forall k :: k in keys ==> k in points
    ensures s == PointsText(printable, points, keys)
  {
    hide Field, PointsText;
    s := "";
    assert keys[0..] == keys;
    Regroup(PointsText(printable, points, keys), "", "");
    for i := 0 to |keys|
      invariant s + PointsText(printable, points, keys[i..]) == PointsText(printable, points, keys)
    {
      PointsStep(printable, points, keys, i);
      var rest := PointsText(printable, points, keys[i + 1..]);
      var field := Field(printable, keys[i], points[keys[i]]);
      Regroup(s, field, rest);
      s := s + field;
    }
    PointsEnd(printable, points, keys);
    Regroup(s, "", "");
  }

  lemma PointsEnd(printable: char -> bool, points: map<string, bool>, keys: seq<string>)
    requires forall k :: k in keys ==> k in points
    ensures PointsText(printable, points, keys[|keys|..]) == ""
  {
  }

  function Joined(hosts: seq<string>): string {
    if hosts == [] then "" else if |hosts| == 1 then hosts[0] else hosts[0] + ("," + Joined(hosts[1..]))
  }

  datatype GoRecord = GoRecord(mode: Mode, url: string, keyHash: string, allowedHosts: string,
                               instanceID: string, controlPoints: string)

  function TextOf(t: Option<string>): string { if t.Some? then t.value else "" }

  ghost function GoSignature(printable: char -> bool, hash: string -> string, r: Resolved, instanceId: Option<string>): GoRecord {
    GoRecord(r.mode, TextOf(r.url), if r.key.Some? then hash(r.key.value) else "",
             Joined(if r.allowedHosts.Some? then r.allowedHosts.value else []), TextOf(Trimmed(instanceId)),
             if r.mode == Local then PointsText(printable, r.controlPoints, Sorted(Characters, r.controlPoints.Keys)) else "")
  }

  /** SHA-256 taken as collision-free; its digest is never empty. */
  ghost predicate CollisionFree(hash: string -> string) {
    && (forall s :: hash(s) != "")
    && (forall s, t :: hash(s) == hash(t) ==> s == t)
  }

  /** The text itself, marked, is such a digest. */
  lemma MarkedIsCollisionFree()
    ensures CollisionFree(s => "#" + s)
  {
    forall s, t | "#" + s == "#" + t ensures s == t { Cancel("#", s, t); }
  }

  /** The allowlist `resolve` builds for an endpoint override: its host, then the other loopback hosts. */
  function HostList(host: string): seq<string> { [host] + OtherLoopbacks(host, LOOPBACK_HOSTS) }

  /** What `resolve` produces: a host list of its own for an override, no blank texts. */
  ghost predicate AsResolved(r: Resolved) {
    && (r.url.Some? ==> r.url.value != "")
    && (r.allowedHosts.Some? ==> exists h :: r.allowedHosts.value == HostList(h))
  }

  lemma ResolvedEndpoint(o: Options, env: Environment, build: Build)
    ensures var (e, _) := ResolveUrl(o, env, build);
            e.Ok? ==> e.value.url != "" && (e.value.allowedHosts.Some? ==> exists h :: e.value.allowedHosts.value == HostList(h))
  {
    hide Pick, OtherLoopbacks, TrimSlashes, InvalidUrlMessage, HttpsMessage, Redaction.Redact, ParseUrl;
    NothingParses();
    var picked := Pick(o.url, OPT_URL, [ENV_URL], ["FW_API_URL", "FW_ATTEST_URL"], env, ENV_URL);
    match picked.found
    case None =>
    case Some(s) =>
      var parsed := ParseUrl(TrimSlashes(s.value));
      if parsed.Some? { assert [parsed.value.1] + OtherLoopbacks(parsed.value.1, LOOPBACK_HOSTS) == HostList(parsed.value.1); }
  }

  lemma NothingParses()
    ensures ParseUrl("") == None
  {
  }

  /** Every decision of `resolve` has that shape. */
  lemma ResolvedShape(o: Options, env: Environment, build: Build)
    requires Resolve(o, env, build).Ok?
    ensures AsResolved(Resolve(o, env, build).value)
  {
    hide Pick, ResolveUrl, HostList, IsDevEnvironment, NoKeyError, FamilyOf, FamilyMessage, Redaction.Redact, IgnoredKeyLine;
    ResolvedEndpoint(o, env, build);
  }

  predicate IsLoopback(h: string) { h == "localhost" || h == "127.0.0.1" || h == "::1" }

  lemma OthersAre(h: string)
    ensures !IsLoopback(h) ==> OtherLoopbacks(h, LOOPBACK_HOSTS) == LOOPBACK_HOSTS
    ensures OtherLoopbacks("localhost", LOOPBACK_HOSTS) == ["127.0.0.1", "::1"]
    ensures OtherLoopbacks("127.0.0.1", LOOPBACK_HOSTS) == ["localhost", "::1"]
    ensures OtherLoopbacks("::1", LOOPBACK_HOSTS) == ["localhost", "127.0.0.1"]
  {
    var a, b, c := "localhost", "127.0.0.1", "::1";
    assert a[0] != b[0] && b[0] != c[0] && a[0] != c[0];
    assert LOOPBACK_HOSTS == [a, b, c] && [a, b, c][1..] == [b, c] && [b, c][1..] == [c];
    OthersOfThree(h, a, b, c);
    OthersOfThree(a, a, b, c);
    OthersOfThree(b, a, b, c);
    OthersOfThree(c, a, b, c);
  }

  lemma OthersOfThree(h: string, a: string, b: string, c: string)
    ensures OtherLoopbacks(h, [a, b, c]) ==
            (if a != h then [a] else []) + ((if b != h then [b] else []) + (if c != h then [c] else []))
  {
    assert [a, b, c][1..] == [b, c] && [b, c][1..] == [c];
    assert OtherLoopbacks(h, [c]) == (if c != h then [c] else []) + [];
  }

  lemma JoinThree(a: string, b: string, c: string)
    ensures Joined([a, b, c]) == a + ("," + (b + ("," + c)))
  {
    JoinMore([a, b, c]);
    JoinMore([b, c]);
    assert [a, b, c][1..] == [b, c] && [b, c][1..] == [c] && Joined([c]) == c;
  }

  lemma JoinMore(hosts: seq<string>)
    requires |hosts| > 1
    ensures Joined(hosts) == hosts[0] + ("," + Joined(hosts[1..]))
  {
  }

  lemma JoinedLoopback(h: string)
    requires IsLoopback(h)
    ensures var t := Joined(HostList(h)); |t| == 23 && t[0] == h[0]
  {
    hide Joined;
    JoinThree("127.0.0.1", "localhost", "::1");
    JoinThree("localhost", "127.0.0.1", "::1");
    JoinThree("::1", "localhost", "127.0.0.1");
    hide OtherLoopbacks;
    OthersAre(h);
    assert HostList("localhost") == ["localhost", "127.0.0.1", "::1"];
    assert HostList("127.0.0.1") == ["127.0.0.1", "localhost", "::1"];
    assert HostList("::1") == ["::1", "localhost", "127.0.0.1"];
  }

  lemma JoinedOwn(h: string)
    requires !IsLoopback(h)
    ensures Joined(HostList(h)) == h + ("," + Joined(LOOPBACK_HOSTS)) && |Joined(LOOPBACK_HOSTS)| == 23
  {
    hide Joined;
    JoinThree("localhost", "127.0.0.1", "::1");
    assert LOOPBACK_HOSTS == ["localhost", "127.0.0.1", "::1"];
    OthersAre(h);
    var l := [h] + LOOPBACK_HOSTS;
    assert HostList(h) == l && |l| == 4 && l[0] == h && l[1..] == LOOPBACK_HOSTS;
    JoinMore(l);
    assert |"localhost" + ("," + ("127.0.0.1" + ("," + "::1")))| == 23;
  }

  /** A joined list starts with its host, and only a loopback host makes it 23 characters long. */
  lemma JoinedInjective(h: string, g: string)
    requires Joined(HostList(h)) == Joined(HostList(g))
    ensures h == g
  {
    hide Joined, HostList;
    if IsLoopback(h) { JoinedLoopback(h); } else { JoinedOwn(h); }
    if IsLoopback(g) { JoinedLoopback(g); } else { JoinedOwn(g); }
    if !IsLoopback(h) && !IsLoopback(g) {
      var tail := "," + Joined(LOOPBACK_HOSTS);
      assert (h + tail)[..|h|] == h && (g + tail)[..|g|] == g;
    }
  }

  lemma {:induction false} PointsTextInjective(printable: char -> bool, m: map<string, bool>, n: map<string, bool>,
                                               k1: seq<string>, k2: seq<string>)
    requires (forall k :: k in k1 ==> k in m) && (forall k :: k in k2 ==> k in n)
    requires PointsText(printable, m, k1) == PointsText(printable, n, k2)
    ensures k1 == k2 && forall k :: k in k1 ==> m[k] == n[k]
  {
    hide GoEscape, Quoted;
    var e := c => GoEscape(printable, c);
    NonEmptyPoints(printable, m, k1);
    NonEmptyPoints(printable, n, k2);
    if k1 != [] {
      GoIsCode(printable);
      hide PrefixCode;
      var t1, t2 := PointsText(printable, m, k1[1..]), PointsText(printable, n, k2[1..]);
      var b1, b2 := if m[k1[0]] then "true;" else "false;", if n[k2[0]] then "true;" else "false;";
      assert PointsText(printable, m, k1) == Quoted(e, k1[0]) + ("=" + (b1 + t1));
      assert PointsText(printable, n, k2) == Quoted(e, k2[0]) + ("=" + (b2 + t2));
      QuotedPrefixFree(e, k1[0], k2[0], "=" + (b1 + t1), "=" + (b2 + t2));
      Cancel("=", b1 + t1, b2 + t2);
      assert (b1 + t1)[0] == b1[0] && (b2 + t2)[0] == b2[0];
      assert b1 == b2;
      Cancel(b1, t1, t2);
      PointsTextInjective(printable, m, n, k1[1..], k2[1..]);
      assert k1 == [k1[0]] + k1[1..] && k2 == [k2[0]] + k2[1..];
    }
  }

  lemma NonEmptyPoints(printable: char -> bool, m: map<string, bool>, keys: seq<string>)
    requires forall k :: k in keys ==> k in m
    ensures PointsText(printable, m, keys) == "" <==> keys == []
  {
  }

  lemma SamePoints(printable: char -> bool, m: map<string, bool>, n: map<string, bool>)
    requires PointsText(printable, m, Sorted(Characters, m.Keys)) == PointsText(printable, n, Sorted(Characters, n.Keys))
    ensures m == n
  {
    hide PointsText, Sorted;
    PointsTextInjective(printable, m, n, Sorted(Characters, m.Keys), Sorted(Characters, n.Keys));
    forall k ensures k in m <==> k in n {
      assert k in Sorted(Characters, m.Keys) <==> k in m;
      assert k in Sorted(Characters, n.Keys) <==> k in n;
    }
    assert m.Keys == n.Keys;
    forall k | k in m ensures m[k] == n[k] { assert k in Sorted(Characters, m.Keys); }
  }

  lemma JoinedNotEmpty(h: string)
    ensures Joined(HostList(h)) != ""
  {
    hide Joined, HostList;
    if IsLoopback(h) { JoinedLoopback(h); } else { JoinedOwn(h); }
  }

  lemma SameHosts(a: Option<seq<string>>, b: Option<seq<string>>)
    requires a.Some? ==> exists h :: a.value == HostList(h)
    requires b.Some? ==> exists h :: b.value == HostList(h)
    requires Joined(if a.Some? then a.value else []) == Joined(if b.Some? then b.value else [])
    ensures a == b
  {
    hide Joined, HostList;
    JoinedNothing();
    if a.Some? {
      var h :| a.value == HostList(h);
      JoinedNotEmpty(h);
    }
    if b.Some? {
      var g :| b.value == HostList(g);
      JoinedNotEmpty(g);
    }
    if a.Some? && b.Some? {
      var h :| a.value == HostList(h);
      var g :| b.value == HostList(g);
      JoinedInjective(h, g);
    }
  }

  lemma JoinedNothing()
    ensures Joined([]) == ""
  {
  }

  /** Go's record of strings tells two resolved starts apart exactly when Rust's fields do. */
  lemma GoDecidesStructure(printable: char -> bool, hash: string -> string,
                           r: Resolved, i: Option<string>, s: Resolved, j: Option<string>)
    requires CollisionFree(hash) && AsResolved(r) && AsResolved(s)
    ensures GoSignature(printable, hash, r, i) == GoSignature(printable, hash, s, j) <==> RustSame(r, i, s, j)
  {
    hide PointsText, Sorted, Joined, HostList, Trim;
    if GoSignature(printable, hash, r, i) == GoSignature(printable, hash, s, j) {
      SameHosts(r.allowedHosts, s.allowedHosts);
      if r.mode == Local { SamePoints(printable, r.controlPoints, s.controlPoints); }
    }
  }
}
