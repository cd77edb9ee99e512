/**
 Where the list of servers comes from: the `-s` option's comma-separated
 list, where a server given without a port gets the default client port,
 and the `key=value` reader for a ZooKeeper configuration file.
 */
module Config {
  import opened Wrappers
  import opened Text
  import opened Assoc

  /** ZooKeeper's default client port (`ZK_DEFAULT_PORT`). */
  const DefaultPort: string := "2181"

  // ---------------------------------------------------------------------
  // The server list

  /** One entry of the list: kept as given when it names a port, otherwise stripped and given the default port. */
  function Entry(s: string): (r: string)
    ensures ':' in s ==> r == s
    ensures ':' !in s ==> r == Strip(s) + ":" + DefaultPort
  {
    if ':' !in s then Strip(s) + ":" + DefaultPort else s
  }

  /** `get_zk_servers` without a configuration file: every entry of the comma-separated list completed. */
  function ServerList(servers: string): (r: string) {
    Join(MapEntries(Split(servers, ',')), ',')
  }

  function MapEntries(xs: seq<string>): (r: seq<string>)
    ensures |r| == |xs| && forall i :: 0 <= i < |xs| ==> r[i] == Entry(xs[i])
  {
    seq(|xs|, i requires 0 <= i < |xs| => Entry(xs[i]))
  }

  /** A completed entry carries a port and no comma, provided its input had no comma. */
  lemma EntryShape(s: string)
    requires ',' !in s
    ensures ':' in Entry(s) && ',' !in Entry(s)
  {
    if ':' !in s {
      var t := Strip(s);
      if ',' in t {
        StripKeeps(s, ',');
      }
      assert Entry(s) == t + ":" + DefaultPort;
      assert Entry(s)[|t|] == ':';
    }
  }

  /** An entry given without a port splits into exactly a host and the default port. */
  lemma DefaultedEntrySplits(s: string)
    requires ':' !in s
    ensures Count(Entry(s), ':') == 1
    ensures Split(Entry(s), ':') == [Strip(s), DefaultPort]
  {
    var t := Strip(s);
    if ':' in t {
      StripKeeps(s, ':');
    }
    var e := Entry(s);
    assert e == t + ":" + DefaultPort;
    OneColon(t, e);
    SplitJoin([t, DefaultPort], ':');
    assert Join([t, DefaultPort], ':') == e;
  }

  lemma OneColon(t: string, e: string)
    requires ':' !in t && e == t + ":" + DefaultPort
    ensures Count(e, ':') == 1
  {
    CountZero(t, ':');
    CountZero(DefaultPort, ':');
    CountAppend(t + ":", DefaultPort, ':');
    CountAppend(t, ":", ':');
  }

  /**
   The completed list splits back into the completed entries, one per
   entry of the input, each with a port; an entry that already had a port
   is passed through unchanged.
   */
  lemma ServerListEntries(servers: string)
    ensures var given := Split(servers, ',');
      var out := Split(ServerList(servers), ',');
      && |out| == |given| == Count(servers, ',') + 1
      && (forall i :: 0 <= i < |out| ==> ':' in out[i] && out[i] == Entry(given[i]))
      && (forall i :: 0 <= i < |out| && ':' in given[i] ==> out[i] == given[i])
  {
    var given := Split(servers, ',');
    var entries := MapEntries(given);
    forall i | 0 <= i < |entries|
      ensures ':' in entries[i] && ',' !in entries[i]
    {
      EntryShape(given[i]);
    }
    SplitJoin(entries, ',');
  }

  /** Completing an already completed list changes nothing. */
  lemma ServerListIdempotent(servers: string)
    ensures ServerList(ServerList(servers)) == ServerList(servers)
  {
    ServerListEntries(servers);
    var out := Split(ServerList(servers), ',');
    assert MapEntries(out) == out;
    assert Split(servers, ',') != [];
    var entries := MapEntries(Split(servers, ','));
    assert out == entries;
  }

  // ---------------------------------------------------------------------
  // The configuration file

  /** What `read_zk_config` does with one line. */
  datatype LineOutcome = Skip | Assign(key: string, value: string) | Stop

  /**
   A blank line or one starting with `#` is skipped; otherwise its spaces are
   removed, it is stripped and split at the first `=`, and a line without
   `=` fails to unpack into key and value (`ValueError`), which ends the
   reading.
   */
  function Outcome(line: string): LineOutcome {
    if RStrip(line) == [] || (|line| > 0 && line[0] == '#') then
      Skip
    else
      var parts := SplitOnce(Strip(Delete(line, ' ')), '=');
      if |parts| == 1 then Stop else Assign(parts[0], parts[1])
  }

  /**
   Exactly the blank and comment lines are skipped; a line stops the reading exactly
   when what is left of it has no `=`; otherwise the key is what comes
   before the first `=`, and neither key nor value holds a space.
   */
  lemma OutcomeSpec(line: string)
    ensures Outcome(line).Skip? <==> AllSpace(line) || (|line| > 0 && line[0] == '#')
    ensures Outcome(line).Stop? <==>
      !AllSpace(line) && (|line| == 0 || line[0] != '#') && '=' !in Strip(Delete(line, ' '))
    ensures Outcome(line).Assign? ==>
      && ' ' !in Outcome(line).key && ' ' !in Outcome(line).value && '=' !in Outcome(line).key
      && Outcome(line).key + "=" + Outcome(line).value == Strip(Delete(line, ' '))
  {
    NoSpaceAfterStrip(Delete(line, ' '));
    if AllSpace(line) {
      assert RStrip(line) == [];
    }
  }

  lemma NoSpaceAfterStrip(s: string)
    requires ' ' !in s
    ensures ' ' !in Strip(s)
  {
    if ' ' in Strip(s) {
      StripKeeps(s, ' ');
    }
  }

  /** What happens to each line of a file. */
  function Outcomes(lines: seq<string>): (outs: seq<LineOutcome>)
    ensures |outs| == |lines|
  {
    if |lines| == 0 then [] else [Outcome(lines[0])] + Outcomes(lines[1..])
  }

  lemma {:induction false} OutcomeAt(lines: seq<string>, i: nat)
    requires i < |lines|
    ensures Outcomes(lines)[i] == Outcome(lines[i])
  {
    if i > 0 {
      OutcomeAt(lines[1..], i - 1);
    }
  }

  /** The assignments made before the first line that stops the reading; a skipped line assigns nothing. */
  function Steps(outs: seq<LineOutcome>): (steps: seq<Option<(string, string)>>)
    ensures |steps| <= |outs|
  {
    if |outs| == 0 then []
    else match outs[0]
      case Stop => []
      case Skip => [None] + Steps(outs[1..])
      case Assign(k, v) => [Some((k, v))] + Steps(outs[1..])
  }

  /** Before any stopping line, the assignments of a file are those of its two parts one after the other. */
  lemma {:induction false} StepsSplit(outs: seq<LineOutcome>, i: nat)
    requires i <= |outs|
    requires forall j :: 0 <= j < i ==> !outs[j].Stop?
    ensures Steps(outs) == Steps(outs[..i]) + Steps(outs[i..])
  {
    if i > 0 {
      StepsSplit(outs[1..], i - 1);
      assert outs[1..][..i - 1] == outs[..i][1..];
      assert outs[1..][i - 1..] == outs[i..];
    } else {
      assert outs[..0] == [];
    }
  }

  /** The last outcome of a file without a stopping line adds its step at the end. */
  lemma StepsSnoc(outs: seq<LineOutcome>, o: LineOutcome)
    requires forall j :: 0 <= j < |outs| ==> !outs[j].Stop?
    requires !o.Stop?
    ensures Steps(outs + [o]) == Steps(outs) + [if o.Skip? then None else Some((o.key, o.value))]
  {
    StepsSplit(outs + [o], |outs|);
    assert (outs + [o])[..|outs|] == outs;
    assert (outs + [o])[|outs|..] == [o];
  }

  /**
   `read_zk_config` over the lines of the file: the dict of every
   assignment up to the first line without `=`, a later assignment
   overriding an earlier one. The `return` in `finally` turns the
   unpacking error into an early return of what was read so far.
   */
  method ReadConfig(lines: seq<string>) returns (config: map<string, string>)
    ensures config == Build(Steps(Outcomes(lines)))
    ensures Holds(Steps(Outcomes(lines)), config)
  {
    var outs := Outcomes(lines);
    config := map[];
    var i := 0;
    while i < |lines|
      invariant i <= |lines|
      invariant forall j :: 0 <= j < i ==> !outs[j].Stop?
      invariant config == Build(Steps(outs[..i]))
    {
      var o := outs[i];
      if o.Stop? {
        StopStep(outs, i);
        BuildHolds(Steps(outs));
        return;
      }
      ReadStep(outs, i);
      if o.Assign? {
        config := config[o.key := o.value];
      }
      i := i + 1;
    }
    assert outs[..i] == outs;
    BuildHolds(Steps(outs));
  }

  /** The dict after one more line that does not stop the reading. */
  lemma ReadStep(outs: seq<LineOutcome>, i: nat)
    requires i < |outs| && !outs[i].Stop?
    requires forall j :: 0 <= j < i ==> !outs[j].Stop?
    ensures Build(Steps(outs[..i + 1])) ==
      if outs[i].Assign? then Build(Steps(outs[..i]))[outs[i].key := outs[i].value] else Build(Steps(outs[..i]))
  {
    var o := outs[i];
    assert outs[..i + 1] == outs[..i] + [o];
    StepsSnoc(outs[..i], o);
    var prev := Steps(outs[..i]);
    var step := if o.Skip? then None else Some((o.key, o.value));
    assert (prev + [step])[..|prev|] == prev;
  }

  /** At the first stopping line the dict read so far is the final one. */
  lemma StopStep(outs: seq<LineOutcome>, i: nat)
    requires i < |outs| && outs[i].Stop?
    requires forall j :: 0 <= j < i ==> !outs[j].Stop?
    ensures Steps(outs) == Steps(outs[..i])
  {
    StepsSplit(outs, i);
    assert Steps(outs[i..]) == [];
    assert Steps(outs) == Steps(outs[..i]) + [];
  }

  /** A well-formed `key=value` pair: no spaces, no `=` in the key, nothing strippable at the ends, not a comment. */
  predicate PlainPair(kv: (string, string)) {
    && |kv.0| > 0 && kv.0[0] != '#' && !IsSpace(kv.0[0])
    && ' ' !in kv.0 && '=' !in kv.0 && ' ' !in kv.1
    && (|kv.1| > 0 ==> !IsSpace(kv.1[|kv.1| - 1]))
  }

  /** The file line of a pair, terminated by a newline. */
  function PairLine(kv: (string, string)): string {
    kv.0 + "=" + kv.1 + "\n"
  }

  /** A written pair reads back as the same assignment. */
  lemma PairLineOutcome(kv: (string, string))
    requires PlainPair(kv)
    ensures Outcome(PairLine(kv)) == Assign(kv.0, kv.1)
  {
    var (k, v) := kv;
    var body := k + "=" + v;
    var line := PairLine(kv);
    assert line == body + "\n";
    PairBody(k, v, body);
    StripNewline(body, line);
    assert line[0] == k[0];
    RStripKeeps(line);
    assert Delete(line, ' ') == line;
    OneSplit(body, k, v, SplitOnce(body, '='));
  }

  lemma PairBody(k: string, v: string, body: string)
    requires body == k + "=" + v && |k| > 0 && !IsSpace(k[0]) && ' ' !in k && ' ' !in v
    requires |v| > 0 ==> !IsSpace(v[|v| - 1])
    ensures |body| > 0 && !IsSpace(body[0]) && !IsSpace(body[|body| - 1]) && ' ' !in body
  {
    assert body[0] == k[0];
    if |v| > 0 {
      assert body[|body| - 1] == v[|v| - 1];
    } else {
      assert body[|body| - 1] == '=';
    }
    assert forall i :: 0 <= i < |body| ==> body[i] != ' ' by {
      forall i | 0 <= i < |body| ensures body[i] != ' ' {
        if i < |k| { assert body[i] == k[i]; }
        else if i > |k| { assert body[i] == v[i - |k| - 1]; }
      }
    }
  }

  /** The newline that ends a line is stripped away with any other surrounding white space. */
  lemma StripNewline(body: string, line: string)
    requires |body| > 0 && !IsSpace(body[0]) && !IsSpace(body[|body| - 1]) && ' ' !in body
    requires line == body + "\n"
    ensures Strip(line) == body && ' ' !in line
  {
    assert line[..|line| - 1] == body;
  }

  /** `rstrip()` keeps a line that starts with a non-space character non-empty. */
  lemma RStripKeeps(line: string)
    requires |line| > 0 && !IsSpace(line[0])
    ensures RStrip(line) != []
  {
    assert line[0..] == line;
  }

  /** `k=v` with `=` not in `k` splits at the `=` after `k`. */
  lemma OneSplit(body: string, k: string, v: string, parts: seq<string>)
    requires body == k + "=" + v && '=' !in k
    requires parts == SplitOnce(body, '=')
    ensures parts == [k, v]
  {
    assert body[|k|] == '=';
    var p := parts[0];
    assert |parts| == 2;
    if |p| < |k| {
      assert false;
    } else if |p| > |k| {
      assert false;
    }
    assert p == body[..|k|] == k;
    assert parts[1] == body[|k| + 1..] == v;
  }

  /** The file written from plain pairs, one per line. */
  function ConfigText(pairs: seq<(string, string)>): (lines: seq<string>)
    ensures |lines| == |pairs| && forall i :: 0 <= i < |pairs| ==> lines[i] == PairLine(pairs[i])
  {
    seq(|pairs|, i requires 0 <= i < |pairs| => PairLine(pairs[i]))
  }

  lemma PairOutcomeAt(pairs: seq<(string, string)>, i: nat)
    requires i < |pairs| && PlainPair(pairs[i])
    ensures Outcomes(ConfigText(pairs))[i] == Assign(pairs[i].0, pairs[i].1)
  {
    var lines := ConfigText(pairs);
    OutcomeAt(lines, i);
    PairLineOutcome(pairs[i]);
  }

  /** The outcome each plain pair's line should have. */
  function Assigns(pairs: seq<(string, string)>): (outs: seq<LineOutcome>)
    ensures |outs| == |pairs| && forall i :: 0 <= i < |pairs| ==> outs[i] == Assign(pairs[i].0, pairs[i].1)
  {
    seq(|pairs|, i requires 0 <= i < |pairs| => Assign(pairs[i].0, pairs[i].1))
  }

  /** The pairs as dict assignments. */
  function Assignments(pairs: seq<(string, string)>): (steps: seq<Option<(string, string)>>)
    ensures |steps| == |pairs| && forall i :: 0 <= i < |pairs| ==> steps[i] == Some(pairs[i])
  {
    seq(|pairs|, i requires 0 <= i < |pairs| => Some(pairs[i]))
  }

  /** Steps of a run of assignments: the assignments themselves. */
  lemma {:induction false} AssignSteps(pairs: seq<(string, string)>)
    ensures Steps(Assigns(pairs)) == Assignments(pairs)
  {
    if |pairs| > 0 {
      AssignSteps(pairs[1..]);
      assert Assigns(pairs)[1..] == Assigns(pairs[1..]);
      assert Assignments(pairs) == [Some(pairs[0])] + Assignments(pairs[1..]);
    }
  }

  /** Every line of a file written from plain pairs assigns its pair. */
  lemma PairOutcomes(pairs: seq<(string, string)>)
    requires forall i :: 0 <= i < |pairs| ==> PlainPair(pairs[i])
    ensures Outcomes(ConfigText(pairs)) == Assigns(pairs)
  {
    var outs := Outcomes(ConfigText(pairs));
    forall i | 0 <= i < |pairs|
      ensures outs[i] == Assigns(pairs)[i]
    {
      PairOutcomeAt(pairs, i);
    }
  }

  /**
   Reading a file written from plain pairs assigns exactly those pairs in
   order, so the dict holds each key with the value of its last pair.
   */
  lemma ConfigRoundTrip(pairs: seq<(string, string)>)
    requires forall i :: 0 <= i < |pairs| ==> PlainPair(pairs[i])
    ensures Steps(Outcomes(ConfigText(pairs))) == Assignments(pairs)
  {
    PairOutcomes(pairs);
    AssignSteps(pairs);
  }

  /** A skipped line anywhere before the first stopping line leaves the dict as it is. */
  lemma SkippedLineIgnored(before: seq<LineOutcome>, after: seq<LineOutcome>)
    requires forall j :: 0 <= j < |before| ==> !before[j].Stop?
    ensures Build(Steps(before + [Skip] + after)) == Build(Steps(before + after))
  {
    var with := before + [Skip] + after;
    var without := before + after;
    StepsSplit(with, |before|);
    StepsSplit(without, |before|);
    assert with[..|before|] == before && without[..|before|] == before;
    var tail := with[|before|..];
    assert tail == [Skip] + after && tail[1..] == after;
    assert Steps(tail) == [None] + Steps(after);
    assert without[|before|..] == after;
    assert Steps(with) == Steps(before) + [None] + Steps(after);
    BuildNone(Steps(before), Steps(after));
  }

  /** Lines after a stopping line are never read. */
  lemma StopEndsReading(before: seq<LineOutcome>, after: seq<LineOutcome>)
    requires forall j :: 0 <= j < |before| ==> !before[j].Stop?
    ensures Steps(before + [Stop] + after) == Steps(before)
  {
    var with := before + [Stop] + after;
    StepsSplit(with, |before|);
    assert with[..|before|] == before;
    assert with[|before|..][0] == Stop;
  }

  /** A step that assigns nothing leaves the dict as it is. */
  lemma {:induction false} BuildNone(a: seq<Option<(string, string)>>, b: seq<Option<(string, string)>>)
    ensures Build(a + [None] + b) == Build(a + b)
  {
    if |b| == 0 {
      assert (a + [None] + b)[..|a|] == a;
      assert a + b == a;
    } else {
      var b' := b[..|b| - 1];
      BuildNone(a, b');
      assert (a + [None] + b)[..|a + [None] + b| - 1] == a + [None] + b';
      assert (a + b)[..|a + b| - 1] == a + b';
    }
  }
}
