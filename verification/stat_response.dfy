/**
 The reply to ZooKeeper's `stat` command, parsed as the `ZKServer`
 constructor does:

   Zookeeper version: 3.4.6-1569965, built on 02/20/2014 09:09 GMT
   Clients:
    /127.0.0.1:54332[0](queued=0,recved=1,sent=0)

   Latency min/avg/max: 0/0/0
   Mode: standalone
   Node count: 4

 The first line carries the version, the second is skipped, session lines
 run up to the first blank line and every later line is a `Name: value`
 attribute. Any exception inside the constructor's `try` turns the server
 into an unavailable one; splitting the `host:port` string happens before
 the `try`, so a malformed one escapes to the polling thread.
 */
module StatResponse {
  import opened Wrappers
  import opened Text
  import opened Assoc
  import opened SessionLine

  /** The text as a sequence of lines, the way iterating a `StringIO` yields them (without the `\n`). */
  function Lines(text: string): (ls: seq<string>)
    ensures forall i :: 0 <= i < |ls| ==> '\n' !in ls[i]
    ensures Unlines(ls) == text || Unlines(ls) == text + "\n"
  {
    var p := Split(text, '\n');
    if p[|p| - 1] == [] then
      assert p[..|p| - 1] + [[]] == p;
      p[..|p| - 1]
    else
      JoinAppendEmpty(p, '\n');
      p
  }

  /** Lines written out, each ended by `\n`. */
  function Unlines(ls: seq<string>): string {
    Join(ls + [[]], '\n')
  }

  /** Reading back written-out lines gives the same lines. */
  lemma LinesUnlines(ls: seq<string>)
    requires forall i :: 0 <= i < |ls| ==> '\n' !in ls[i]
    ensures Lines(Unlines(ls)) == ls
  {
    SplitJoin(ls + [[]], '\n');
    assert (ls + [[]])[..|ls|] == ls;
  }

  // ---------------------------------------------------------------------
  // The version: `re.search('.*: (\d+\.\d+\.\d+)-.*', line)`

  /** Where the version pattern sits: `: ` at `j`, then digit runs ending at `a`, `b`, `x`. */
  datatype VersionPos = VersionPos(j: nat, a: nat, b: nat, x: nat)

  /**
   At `j` the line reads `: `, digits up to the `.` at `a`, digits up to the
   `.` at `b` and digits up to the `-` at `x`.
   */
  predicate VersionAt(line: string, j: int, a: int, b: int, x: int) {
    && 0 <= j && j + 2 < a && a + 1 < b && b + 1 < x && x < |line|
    && line[j] == ':' && line[j + 1] == ' '
    && DigitRun(line, j + 2, a) && line[a] == '.'
    && DigitRun(line, a + 1, b) && line[b] == '.'
    && DigitRun(line, b + 1, x) && line[x] == '-'
  }

  /** The version pattern starting at `j`, if there is one. */
  function VersionFrom(line: string, j: nat): (r: Option<VersionPos>)
    ensures r.Some? ==> r.value.j == j && VersionAt(line, j, r.value.a, r.value.b, r.value.x)
    ensures forall a, b, x :: VersionAt(line, j, a, b, x) ==> r == Some(VersionPos(j, a, b, x))
  {
    if j + 2 <= |line| && line[j] == ':' && line[j + 1] == ' ' then
      var a := DigitEnd(line, j + 2);
      if a == j + 2 || a == |line| || line[a] != '.' then None
      else
        var b := DigitEnd(line, a + 1);
        if b == a + 1 || b == |line| || line[b] != '.' then None
        else
          var x := DigitEnd(line, b + 1);
          if x == b + 1 || x == |line| || line[x] != '-' then None
          else Some(VersionPos(j, a, b, x))
    else None
  }

  /**
   The version pattern with the largest start below `hi`: the greedy
   leading `.*` backtracks from the end of the line, so the last `: ` that
   the pattern can follow wins.
   */
  function FindVersion(line: string, hi: nat): (r: Option<VersionPos>)
    requires hi <= |line|
    ensures r.Some? ==> r.value.j < hi && VersionAt(line, r.value.j, r.value.a, r.value.b, r.value.x)
    ensures r.Some? ==> forall j, a, b, x :: r.value.j < j < hi ==> !VersionAt(line, j, a, b, x)
    ensures r.None? ==> forall j, a, b, x :: j < hi ==> !VersionAt(line, j, a, b, x)
  {
    if hi == 0 then None
    else match VersionFrom(line, hi - 1)
      case Some(v) => Some(v)
      case None => FindVersion(line, hi - 1)
  }

  /**
   Group 1 of the version regular expression on one line (which holds no
   `\n`, so `.` matches every character of it), or `None` when it does not
   match and `m.group(1)` raises.
   */
  function VersionOf(line: string): (r: Option<string>)
    ensures r.None? <==> forall j, a, b, x :: !VersionAt(line, j, a, b, x)
    ensures r.Some? ==> exists j, a, b, x :: && VersionAt(line, j, a, b, x) && r.value == line[j + 2..x]
                                             && forall j', a', b', x' :: j < j' ==> !VersionAt(line, j', a', b', x')
  {
    match FindVersion(line, |line|)
    case None => None
    case Some(v) =>
      assert VersionAt(line, v.j, v.a, v.b, v.x);
      Some(line[v.j + 2..v.x])
  }

  /** A line that reads `prefix: major.minor.patch-suffix`. */
  function VersionLine(prefix: string, major: string, minor: string, patch: string, suffix: string): string {
    prefix + ": " + major + "." + minor + "." + patch + "-" + suffix
  }

  predicate Digits(s: string) {
    |s| > 0 && forall i :: 0 <= i < |s| ==> IsDecimal(s[i])
  }

  /** No `:` in `s` is immediately followed by a space. */
  predicate NoColonSpace(s: string) {
    forall y :: 0 <= y < |s| - 1 ==> !(s[y] == ':' && s[y + 1] == ' ')
  }

  /**
   The version is read back from a version line whose suffix holds no `: `
   (a later `: ` followed by a version would win instead), whatever the
   prefix holds.
   */
  lemma VersionRoundTrip(prefix: string, major: string, minor: string, patch: string, suffix: string)
    requires Digits(major) && Digits(minor) && Digits(patch) && NoColonSpace(suffix)
    ensures VersionOf(VersionLine(prefix, major, minor, patch, suffix)) == Some(major + "." + minor + "." + patch)
  {
    var line := VersionLine(prefix, major, minor, patch, suffix);
    var j := |prefix|;
    var a := j + 2 + |major|;
    var b := a + 1 + |minor|;
    var x := b + 1 + |patch|;
    VersionLineLayout(prefix, major, minor, patch, suffix, line, j, a, b, x);
    LastVersion(line, j, a, b, x);
  }

  /** Where the pattern sits in a version line, and that no `: ` follows its own. */
  lemma VersionLineLayout(prefix: string, major: string, minor: string, patch: string, suffix: string,
                           line: string, j: nat, a: nat, b: nat, x: nat)
    requires Digits(major) && Digits(minor) && Digits(patch) && NoColonSpace(suffix)
    requires line == VersionLine(prefix, major, minor, patch, suffix)
    requires j == |prefix| && a == j + 2 + |major| && b == a + 1 + |minor| && x == b + 1 + |patch|
    ensures VersionAt(line, j, a, b, x)
    ensures line[j + 2..x] == major + "." + minor + "." + patch
    ensures NoColonSpace(line[j + 1..])
  {
    assert line == prefix + ": " + major + "." + minor + "." + patch + "-" + suffix;
    assert line[j + 2..a] == major && line[a + 1..b] == minor && line[b + 1..x] == patch;
    assert line[x + 1..] == suffix;
    assert line[j + 2..x] == major + "." + minor + "." + patch;
    var t := line[j + 1..];
    forall y | 0 <= y < |t| - 1
      ensures !(t[y] == ':' && t[y + 1] == ' ')
    {
      if x < j + 1 + y {
        assert t[y] == suffix[j + y - x] && t[y + 1] == suffix[j + y - x + 1];
      } else {
        assert t[y] != ':';
      }
    }
  }

  /** When no `: ` follows the pattern at `j`, the search reports the version found there. */
  lemma LastVersion(line: string, j: nat, a: nat, b: nat, x: nat)
    requires VersionAt(line, j, a, b, x)
    requires NoColonSpace(line[j + 1..])
    ensures VersionOf(line) == Some(line[j + 2..x])
  {
    var v := FindVersion(line, |line|);
    assert v.Some?;
    if v.value.j > j {
      assert false;
    }
    assert v.value.j == j;
  }

  /** A first line without `: ` never yields a version. */
  lemma NoColonSpaceNoVersion(line: string)
    requires NoColonSpace(line)
    ensures VersionOf(line).None?
  {
  }

  // ---------------------------------------------------------------------
  // Sessions and attributes

  /** `not line.strip()`. */
  predicate Blank(line: string) {
    Strip(line) == []
  }

  /** The index of the first blank line at or after `from`. */
  function FirstBlank(ls: seq<string>, from: nat): (r: Option<nat>)
    requires from <= |ls|
    ensures r.Some? ==> from <= r.value < |ls| && Blank(ls[r.value])
    ensures r.Some? ==> forall i :: from <= i < r.value ==> !Blank(ls[i])
    ensures r.None? ==> forall i :: from <= i < |ls| ==> !Blank(ls[i])
    decreases |ls| - from
  {
    if from == |ls| then None
    else if Blank(ls[from]) then Some(from)
    else FirstBlank(ls, from + 1)
  }

  /** `Session(line.strip(), server_id)` for each line in order, `None` if one raises. */
  function ParseSessions(ls: seq<string>, serverId: nat): (r: Option<seq<Session>>)
    ensures r.Some? <==> forall i :: 0 <= i < |ls| ==> ParseSession(ls[i], serverId).Some?
    ensures r.Some? ==> |r.value| == |ls|
    ensures r.Some? ==> forall i :: 0 <= i < |ls| ==> ParseSession(ls[i], serverId) == Some(r.value[i])
  {
    MapAll(ls, line => ParseSession(line, serverId))
  }

  /** `attr.strip().replace(" ", "_").replace("/", "_").lower()`. */
  function AttrName(raw: string): (r: string)
    ensures |r| == |Strip(raw)|
    ensures forall i :: 0 <= i < |r| ==>
      r[i] == if Strip(raw)[i] == ' ' || Strip(raw)[i] == '/' then '_' else LowerChar(Strip(raw)[i])
    ensures ' ' !in r && '/' !in r
    ensures forall i :: 0 <= i < |r| ==> !IsAsciiUpper(r[i])
  {
    Lower(ReplaceChar(ReplaceChar(Strip(raw), ' ', '_'), '/', '_'))
  }

  /** The latency line's name becomes the attribute the parser splits into three. */
  lemma LatencyName()
    ensures AttrName("Latency min/avg/max") == LatencyKey
  {
    var raw := "Latency min/avg/max";
    assert Strip(raw) == raw;
    UnderscoredLatency();
  }

  lemma UnderscoredLatency()
    ensures Lower(ReplaceChar(ReplaceChar("Latency min/avg/max", ' ', '_'), '/', '_')) == LatencyKey
  {
    var t := ReplaceChar(ReplaceChar("Latency min/avg/max", ' ', '_'), '/', '_');
    assert t == "Latency_min_avg_max";
    assert Lower(t) == "latency_min_avg_max";
  }

  /**
   `attr, value = line.split(':')`: exactly one `:`, else `ValueError`;
   the name normalised and the value stripped.
   */
  function AttrLine(line: string): (r: Option<(string, string)>)
    ensures r.Some? <==> Count(line, ':') == 1
    ensures r.Some? ==> exists name, value :: name + ":" + value == line && r.value == (AttrName(name), Strip(value))
  {
    var parts := Split(line, ':');
    if |parts| != 2 then None
    else
      assert parts[0] + ":" + parts[1] == line by {
        assert Join(parts[1..], ':') == parts[1];
      }
      Some((AttrName(parts[0]), Strip(parts[1])))
  }

  /** Every line is an attribute line. */
  predicate AttrLines(ls: seq<string>) {
    forall i :: 0 <= i < |ls| ==> Count(ls[i], ':') == 1
  }

  /** The attribute lines parsed in order, `None` at the first one without exactly one `:`. */
  function AttrPairs(ls: seq<string>): (r: Option<seq<(string, string)>>)
    ensures r.Some? <==> AttrLines(ls)
    ensures r.Some? ==> |r.value| == |ls| && forall i :: 0 <= i < |ls| ==> AttrLine(ls[i]) == Some(r.value[i])
  {
    MapAll(ls, AttrLine)
  }

  /** `setattr(self, attr, value)` for each attribute line in order. */
  function ParseAttrs(ls: seq<string>): (r: Option<map<string, string>>)
    ensures r.Some? <==> AttrLines(ls)
    ensures r.Some? ==> Holds(Assignments(AttrPairs(ls).value), r.value)
  {
    match AttrPairs(ls)
    case None => None
    case Some(pairs) =>
      BuildHolds(Assignments(pairs));
      Some(Build(Assignments(pairs)))
  }

  /** The `Name: value` line the server prints for one attribute. */
  function AttrText(kv: (string, string)): string {
    kv.0 + ": " + kv.1
  }

  /** An attribute as the server prints it: no `:` in its name or value, and no white space around the value. */
  predicate PlainAttr(kv: (string, string)) {
    ':' !in kv.0 && ':' !in kv.1 && Strip(kv.1) == kv.1
  }

  /** A printed attribute line reads back as the normalised name and the value. */
  lemma AttrLineText(kv: (string, string))
    requires PlainAttr(kv)
    ensures AttrLine(AttrText(kv)) == Some((AttrName(kv.0), kv.1))
  {
    var v := " " + kv.1;
    assert ':' !in v;
    assert AttrText(kv) == Join([kv.0, v], ':');
    SplitJoin([kv.0, v], ':');
    assert v[1..] == kv.1;
  }

  /** The attribute section printed one line per attribute. */
  function AttrTexts(attrs: seq<(string, string)>): (ls: seq<string>)
    ensures |ls| == |attrs| && forall i :: 0 <= i < |attrs| ==> ls[i] == AttrText(attrs[i])
  {
    seq(|attrs|, i requires 0 <= i < |attrs| => AttrText(attrs[i]))
  }

  /** The attributes with their names normalised, in order. */
  function Normalised(attrs: seq<(string, string)>): (r: seq<(string, string)>)
    ensures |r| == |attrs| && forall i :: 0 <= i < |attrs| ==> r[i] == (AttrName(attrs[i].0), attrs[i].1)
  {
    seq(|attrs|, i requires 0 <= i < |attrs| => (AttrName(attrs[i].0), attrs[i].1))
  }

  /** A printed attribute section assigns each normalised name its value, in order. */
  lemma AttrTextsParse(attrs: seq<(string, string)>)
    requires forall i :: 0 <= i < |attrs| ==> PlainAttr(attrs[i])
    ensures AttrLines(AttrTexts(attrs))
    ensures AttrPairs(AttrTexts(attrs)) == Some(Normalised(attrs))
  {
    var ls := AttrTexts(attrs);
    forall i | 0 <= i < |ls|
      ensures AttrLine(ls[i]) == Some(Normalised(attrs)[i])
    {
      AttrLineText(attrs[i]);
    }
    assert AttrPairs(ls).value == Normalised(attrs);
  }

  const LatencyKey := "latency_min_avg_max"

  /** `self.latency_min_avg_max.split("/")` unpacked into three. */
  function Latencies(attrs: map<string, string>): (r: Option<(string, string, string)>)
    ensures r.Some? <==> LatencyKey in attrs && Count(attrs[LatencyKey], '/') == 2
    ensures r.Some? ==> attrs[LatencyKey] == r.value.0 + "/" + r.value.1 + "/" + r.value.2
    ensures r.Some? ==> '/' !in r.value.0 && '/' !in r.value.1 && '/' !in r.value.2
  {
    if LatencyKey !in attrs then None
    else
      var p := Split(attrs[LatencyKey], '/');
      if |p| != 3 then None
      else
        assert Join(p[2..], '/') == p[2];
        assert Join(p[1..], '/') == p[1] + "/" + p[2];
        Some((p[0], p[1], p[2]))
  }

  // ---------------------------------------------------------------------
  // The whole reply

  /** What a parsed `stat` reply holds. */
  datatype Stat = Stat(version: string, sessions: seq<Session>, attrs: map<string, string>,
                       minLatency: string, avgLatency: string, maxLatency: string)

  /** The lines after the skipped second one. */
  function Body(ls: seq<string>): seq<string> {
    if |ls| < 2 then [] else ls[2..]
  }

  /** The client lines: the body up to its first blank line. */
  function SessionSection(ls: seq<string>): seq<string>
    requires FirstBlank(Body(ls), 0).Some?
  {
    Body(ls)[..FirstBlank(Body(ls), 0).value]
  }

  /** The attribute lines: the body after its first blank line. */
  function AttrSection(ls: seq<string>): seq<string>
    requires FirstBlank(Body(ls), 0).Some?
  {
    Body(ls)[FirstBlank(Body(ls), 0).value + 1..]
  }

  /** The body of the constructor's `try`, over the reply's lines; `None` when it raises. */
  function ParseLines(ls: seq<string>, serverId: nat): (r: Option<Stat>)
    ensures |ls| == 0 ==> r.None?
    ensures r.Some? ==> VersionOf(ls[0]) == Some(r.value.version)
    ensures r.Some? ==> Latencies(r.value.attrs) == Some((r.value.minLatency, r.value.avgLatency, r.value.maxLatency))
    ensures r.Some? ==> FirstBlank(Body(ls), 0).Some?
    ensures r.Some? <==>
      && |ls| > 0 && VersionOf(ls[0]).Some? && FirstBlank(Body(ls), 0).Some?
      && ParseSessions(SessionSection(ls), serverId).Some?
      && ParseAttrs(AttrSection(ls)).Some?
      && Latencies(ParseAttrs(AttrSection(ls)).value).Some?
    ensures r.Some? ==>
      && r.value.sessions == ParseSessions(SessionSection(ls), serverId).value
      && r.value.attrs == ParseAttrs(AttrSection(ls)).value
  {
    if |ls| == 0 then None
    else match VersionOf(ls[0])
      case None => None
      case Some(version) =>
        if FirstBlank(Body(ls), 0).None? then None
        else
          match ParseSessions(SessionSection(ls), serverId)
          case None => None
          case Some(sessions) =>
            match ParseAttrs(AttrSection(ls))
            case None => None
            case Some(attrs) =>
              match Latencies(attrs)
              case None => None
              case Some(lat) => Some(Stat(version, sessions, attrs, lat.0, lat.1, lat.2))
  }

  /** The reply text parsed; `None` when the constructor's `try` would raise. */
  function ParseStat(text: string, serverId: nat): (r: Option<Stat>)
    ensures text == [] ==> r.None?
  {
    assert Split([], '\n') == [[]];
    ParseLines(Lines(text), serverId)
  }

  /** The second line plays no part: any line may stand in its place. */
  lemma SecondLineIgnored(ls: seq<string>, other: string, serverId: nat)
    requires |ls| >= 2
    ensures ParseLines(ls[1 := other], serverId) == ParseLines(ls, serverId)
  {
    assert Body(ls[1 := other]) == Body(ls);
  }

  /** Without a blank line after the second line there is no attribute section, so no latency: unavailable. */
  lemma NoBlankNoStat(ls: seq<string>, serverId: nat)
    requires forall i :: 2 <= i < |ls| ==> !Blank(ls[i])
    ensures ParseLines(ls, serverId).None?
  {
    var rest := Body(ls);
    assert forall i :: 0 <= i < |rest| ==> rest[i] == ls[i + 2];
  }

  /** None of the lines is blank. */
  predicate NoBlank(ls: seq<string>) {
    forall i :: 0 <= i < |ls| ==> !Blank(ls[i])
  }

  /** The banner on the reply's first line: `prefix: major.minor.patch-suffix`. */
  datatype Banner = Banner(prefix: string, major: string, minor: string, patch: string, suffix: string)
  {
    /** Three digit runs, and no `: ` after them. */
    predicate Printable() {
      Digits(major) && Digits(minor) && Digits(patch) && NoColonSpace(suffix)
    }

    function Line(): string {
      VersionLine(prefix, major, minor, patch, suffix)
    }

    function Version(): string {
      major + "." + minor + "." + patch
    }
  }

  /** A connection as the server prints it under `Clients:`. */
  datatype Client = Client(host: string, port: string, ops: string, items: seq<(string, string)>)
  {
    /** An address of host characters, a numeric port and interest set, and at least one plain item. */
    predicate Printable() {
      && |host| > 0 && HostRun(host, 0, |host|)
      && |port| > 0 && DigitRun(port, 0, |port|)
      && |ops| > 0 && DigitRun(ops, 0, |ops|)
      && |items| > 0 && forall j :: 0 <= j < |items| ==> PlainItem(items[j])
    }

    function Line(): string {
      SessionText(host, port, ops, items)
    }

    /** The session this connection stands for: its groups, each overridden by a like-named item, and its items. */
    function AsSession(serverId: nat): Session {
      var attrs := Build(Assignments(items));
      Session(Attr(attrs, "host", host), Attr(attrs, "port", port), serverId, Attr(attrs, "interest_ops", ops), attrs)
    }
  }

  function ClientLines(clients: seq<Client>): (ls: seq<string>)
    ensures |ls| == |clients| && forall i :: 0 <= i < |clients| ==> ls[i] == clients[i].Line()
  {
    seq(|clients|, i requires 0 <= i < |clients| => clients[i].Line())
  }

  function ClientSessions(clients: seq<Client>, serverId: nat): (ss: seq<Session>)
    ensures |ss| == |clients| && forall i :: 0 <= i < |clients| ==> ss[i] == clients[i].AsSession(serverId)
  {
    seq(|clients|, i requires 0 <= i < |clients| => clients[i].AsSession(serverId))
  }

  /** Printed client lines are not blank and read back as their sessions, in order. */
  lemma ClientLinesParse(clients: seq<Client>, serverId: nat)
    requires forall i :: 0 <= i < |clients| ==> clients[i].Printable()
    ensures NoBlank(ClientLines(clients))
    ensures ParseSessions(ClientLines(clients), serverId) == Some(ClientSessions(clients, serverId))
  {
    var ls := ClientLines(clients);
    forall i | 0 <= i < |ls|
      ensures !Blank(ls[i]) && ParseSession(ls[i], serverId) == Some(clients[i].AsSession(serverId))
    {
      var c := clients[i];
      SessionTextGroups(c.host, c.port, c.ops, c.items);
      ParseSessionText(c.host, c.port, c.ops, c.items, serverId);
      assert ls[i][0] == '/';
    }
    assert ParseSessions(ls, serverId).value == ClientSessions(clients, serverId);
  }

  /** A whole `stat` reply as the server prints it. */
  datatype Report = Report(banner: Banner, second: string, clients: seq<Client>, attrs: seq<(string, string)>)
  {
    predicate Printable() {
      && banner.Printable()
      && (forall i :: 0 <= i < |clients| ==> clients[i].Printable())
      && (forall i :: 0 <= i < |attrs| ==> PlainAttr(attrs[i]))
    }

    /** Banner, a second line, one line per client, a blank line, one line per attribute. */
    function Lines(): seq<string> {
      [banner.Line(), second] + (ClientLines(clients) + [""] + AttrTexts(attrs))
    }
  }

  /**
   A printed reply parses back exactly when its attributes give a three-part
   latency, and then into the banner's version, the clients' sessions in
   order, and every normalised attribute name with its last value.
   */
  lemma ComposedReply(rep: Report, serverId: nat)
    requires rep.Printable()
    ensures var r := ParseLines(rep.Lines(), serverId);
      var steps := Assignments(Normalised(rep.attrs));
      && (r.Some? <==> Latencies(Build(steps)).Some?)
      && (r.Some? ==> && r.value.version == rep.banner.Version()
                      && r.value.sessions == ClientSessions(rep.clients, serverId)
                      && Holds(steps, r.value.attrs))
  {
    var b := rep.banner;
    var ls := rep.Lines();
    var sessionLines := ClientLines(rep.clients);
    var attrLines := AttrTexts(rep.attrs);
    var steps := Assignments(Normalised(rep.attrs));
    VersionRoundTrip(b.prefix, b.major, b.minor, b.patch, b.suffix);
    assert ls[0] == b.Line();
    assert Body(ls) == sessionLines + [""] + attrLines;
    ClientLinesParse(rep.clients, serverId);
    AttrTextsParse(rep.attrs);
    BlankSeparates(sessionLines, attrLines);
    var n := |sessionLines|;
    assert ParseAttrs(Body(ls)[n + 1..]) == Some(Build(steps));
    if Latencies(Build(steps)).Some? {
      ParseLinesParts(ls, serverId, n);
    }
  }

  /** The first blank line of the body is the one that separates sessions and attributes. */
  lemma BlankSeparates(sessionLines: seq<string>, attrLines: seq<string>)
    requires NoBlank(sessionLines)
    ensures var rest := sessionLines + [""] + attrLines;
      && FirstBlank(rest, 0) == Some(|sessionLines|)
      && rest[..|sessionLines|] == sessionLines && rest[|sessionLines| + 1..] == attrLines
  {
    var rest := sessionLines + [""] + attrLines;
    var n := |sessionLines|;
    assert rest[n] == "" && Blank(rest[n]);
    assert forall i :: 0 <= i < n ==> rest[i] == sessionLines[i];
    assert rest[..n] == sessionLines;
    assert rest[n + 1..] == attrLines;
  }

  /** When every stage succeeds, the stat holds what each stage produced. */
  lemma ParseLinesParts(ls: seq<string>, serverId: nat, n: nat)
    requires |ls| > 0 && VersionOf(ls[0]).Some?
    requires FirstBlank(Body(ls), 0) == Some(n)
    requires ParseSessions(Body(ls)[..n], serverId).Some?
    requires ParseAttrs(Body(ls)[n + 1..]).Some? && Latencies(ParseAttrs(Body(ls)[n + 1..]).value).Some?
    ensures var attrs := ParseAttrs(Body(ls)[n + 1..]).value;
      var lat := Latencies(attrs).value;
      ParseLines(ls, serverId)
        == Some(Stat(VersionOf(ls[0]).value, ParseSessions(Body(ls)[..n], serverId).value, attrs, lat.0, lat.1, lat.2))
  {
  }

  // ---------------------------------------------------------------------
  // One poll of one server

  /** What fetching the reply gave: its text, or an exception from `send_cmd` (refused, timed out, bad port). */
  datatype Reply = Received(text: string) | FetchFailed

  /** The server as the poller hands it to the interface. */
  datatype ServerRecord =
    | Available(serverId: nat, host: string, port: string, stat: Stat)
    | Unavailable(serverId: nat, host: string, port: string)
  {
    /** `mode`: `"Unavailable"` for an unavailable server, else the `Mode:` attribute if the reply had one. */
    function Mode(): Option<string> {
      match this
      case Unavailable(_, _, _) => Some("Unavailable")
      case Available(_, _, _, st) => if "mode" in st.attrs then Some(st.attrs["mode"]) else None
    }

    /** `sessions`: empty for an unavailable server. */
    function Sessions(): seq<Session> {
      match this
      case Unavailable(_, _, _) => []
      case Available(_, _, _, st) => st.sessions
    }

    /** `version`: `"Unknown"` for an unavailable server. */
    function Version(): string {
      match this
      case Unavailable(_, _, _) => "Unknown"
      case Available(_, _, _, st) => st.version
    }
  }

  /**
   `ZKServer(server, server_id)`: `None` when `server.split(':')` does not
   give exactly host and port, which raises outside the `try`; otherwise the
   server, unavailable when the fetch or the parse raised.
   */
  function Poll(server: string, serverId: nat, reply: Reply): (r: Option<ServerRecord>)
    ensures r.None? <==> Count(server, ':') != 1
    ensures r.Some? ==> r.value.serverId == serverId && r.value.host + ":" + r.value.port == server
    ensures r.Some? && r.value.Available? ==> reply.Received? && ParseStat(reply.text, serverId) == Some(r.value.stat)
    ensures r.Some? && reply.Received? && ParseStat(reply.text, serverId).Some? ==> r.value.Available?
  {
    var parts := Split(server, ':');
    if |parts| != 2 then None
    else
      assert parts[0] + ":" + parts[1] == server by {
        assert Join(parts[1..], ':') == parts[1];
      }
      match reply
      case FetchFailed => Some(Unavailable(serverId, parts[0], parts[1]))
      case Received(text) =>
        match ParseStat(text, serverId)
        case None => Some(Unavailable(serverId, parts[0], parts[1]))
        case Some(st) => Some(Available(serverId, parts[0], parts[1], st))
  }

  /** An empty reply gives an unavailable server. */
  lemma EmptyReplyUnavailable(server: string, serverId: nat)
    requires Count(server, ':') == 1
    ensures Poll(server, serverId, Received("")).value.Unavailable?
  {
  }
}
