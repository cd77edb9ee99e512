/**
 One client connection as the `stat` reply lists it, e.g.
 ` /127.0.0.1:50432[1](queued=0,recved=12,sent=12)`.

 The line (already stripped) is searched for the regular expression
 `/([\da-fA-F:\.]+):(\d+)\[(\d+)\]\((.*)\)`; the four groups are the client
 address, the client port, the interest set and a comma-separated list of
 `key=value` items, each of which becomes an attribute of the session and
 may overwrite the three earlier ones.

 The regular-expression search is modelled twice: declaratively
 (`MatchAt`: where a match may lie) and as a search (`Search`) whose
 contract says it picks the match Python's backtracking engine picks —
 the leftmost start, then the longest address group, then the longest
 `(.*)`.
 */
module SessionLine {
  import opened Wrappers
  import opened Text
  import opened Assoc

  /** `[\da-fA-F:\.]`: the characters of the address group. */
  predicate IsHostChar(c: char) {
    IsDecimal(c) || ('a' <= c <= 'f') || ('A' <= c <= 'F') || c == ':' || c == '.'
  }

  /** `s[lo..hi]` consists of address characters. */
  predicate HostRun(s: string, lo: int, hi: int) {
    0 <= lo <= hi <= |s| && forall j :: lo <= j < hi ==> IsHostChar(s[j])
  }

  /**
   `:(\d+)\[(\d+)\]\((.*)\)` matches `s[k..c + 1]`: the colon is at `k`,
   `[` at `d`, `]` at `e`, `(` at `e + 1` and the final `)` at `c`; `.`
   matches anything but a newline.
   */
  predicate TailAt(s: string, k: int, d: int, e: int, c: int) {
    && 0 <= k && k + 1 < d && d + 1 < e && e + 1 < c < |s|
    && s[k] == ':' && DigitRun(s, k + 1, d) && s[d] == '['
    && DigitRun(s, d + 1, e) && s[e] == ']' && s[e + 1] == '('
    && (forall j :: e + 2 <= j < c ==> s[j] != '\n')
    && s[c] == ')'
  }

  /** The whole pattern matches `s[i..c + 1]`, with the address group `s[i + 1..k]`. */
  predicate MatchAt(s: string, i: int, k: int, d: int, e: int, c: int) {
    TailAt(s, k, d, e, c) && 0 <= i && i + 1 < k && s[i] == '/' && HostRun(s, i + 1, k)
  }

  /** Positions of a match: start `i`, colon `k`, `[` at `d`, `]` at `e`, final `)` at `c`. */
  datatype Match = Match(i: nat, k: nat, d: nat, e: nat, c: nat)

  /** Positions of the part after the address group. */
  datatype Tail = Tail(d: nat, e: nat, c: nat)

  /** The end of the longest run of address characters from `j`. */
  function HostEnd(s: string, j: nat): (r: nat)
    requires j <= |s|
    ensures j <= r <= |s| && HostRun(s, j, r)
    ensures r < |s| ==> !IsHostChar(s[r])
    decreases |s| - j
  {
    if j < |s| && IsHostChar(s[j]) then HostEnd(s, j + 1) else j
  }

  /** The first newline at or after `j`, or the end of `s`. */
  function LineEnd(s: string, j: nat): (r: nat)
    requires j <= |s|
    ensures j <= r <= |s|
    ensures forall x :: j <= x < r ==> s[x] != '\n'
    ensures r < |s| ==> s[r] == '\n'
    decreases |s| - j
  {
    if j < |s| && s[j] != '\n' then LineEnd(s, j + 1) else j
  }

  /** The last `)` in `s[lo..hi]`. */
  function LastClose(s: string, lo: nat, hi: nat): (r: Option<nat>)
    requires lo <= hi <= |s|
    ensures r.Some? ==> lo <= r.value < hi && s[r.value] == ')'
    ensures r.Some? ==> forall x :: r.value < x < hi ==> s[x] != ')'
    ensures r.None? ==> forall x :: lo <= x < hi ==> s[x] != ')'
    decreases hi - lo
  {
    if hi == lo then None
    else if s[hi - 1] == ')' then Some(hi - 1)
    else LastClose(s, lo, hi - 1)
  }

  /**
   Matches the part after the address group at colon `k`. The digit groups
   are delimited by `[` and `]`, so their positions are forced; `(.*)` takes
   the last `)` before a newline.
   */
  function TailFrom(s: string, k: nat): (r: Option<Tail>)
    requires k < |s|
    ensures r.Some? ==> TailAt(s, k, r.value.d, r.value.e, r.value.c)
    ensures forall d, e, c :: TailAt(s, k, d, e, c) ==>
      r.Some? && d == r.value.d && e == r.value.e && c <= r.value.c
  {
    var d := DigitEnd(s, k + 1);
    if s[k] != ':' || d == k + 1 || d == |s| || s[d] != '[' then None
    else
      var e := DigitEnd(s, d + 1);
      if e == d + 1 || e + 1 >= |s| || s[e] != ']' || s[e + 1] != '(' then None
      else
        match LastClose(s, e + 2, LineEnd(s, e + 2))
        case None => None
        case Some(c) => Some(Tail(d, e, c))
  }

  /**
   Backtracking over the greedy address group: the largest colon position
   in `[lo, hi)` after which the rest of the pattern matches.
   */
  function FindColon(s: string, lo: nat, hi: nat): (r: Option<(nat, Tail)>)
    requires lo <= hi <= |s|
    ensures r.Some? ==> lo <= r.value.0 < hi && TailAt(s, r.value.0, r.value.1.d, r.value.1.e, r.value.1.c)
    ensures r.Some? ==> forall k, d, e, c :: r.value.0 < k < hi && TailAt(s, k, d, e, c) ==> false
    ensures r.Some? ==> forall d, e, c :: TailAt(s, r.value.0, d, e, c) ==>
      d == r.value.1.d && e == r.value.1.e && c <= r.value.1.c
    ensures r.None? ==> forall k, d, e, c :: lo <= k < hi ==> !TailAt(s, k, d, e, c)
    decreases hi - lo
  {
    if hi == lo then None
    else match TailFrom(s, hi - 1)
      case Some(t) => Some((hi - 1, t))
      case None => FindColon(s, lo, hi - 1)
  }

  /** The match Python picks among those starting at the `/` at `i`. */
  function MatchFrom(s: string, i: nat): (r: Option<Match>)
    requires i < |s|
    ensures r.Some? ==> r.value.i == i && MatchAt(s, i, r.value.k, r.value.d, r.value.e, r.value.c)
    ensures r.Some? ==> forall k, d, e, c :: MatchAt(s, i, k, d, e, c) ==>
      k <= r.value.k && (k == r.value.k ==> d == r.value.d && e == r.value.e && c <= r.value.c)
    ensures r.None? ==> forall k, d, e, c :: !MatchAt(s, i, k, d, e, c)
  {
    var hi := HostEnd(s, i + 1);
    if s[i] != '/' || hi < i + 2 then None
    else match FindColon(s, i + 2, hi)
      case None => None
      case Some((k, t)) => Some(Match(i, k, t.d, t.e, t.c))
  }

  /**
   `re.search` from position `from`: the leftmost start with a match, and
   at that start the longest address group and then the longest `(.*)`.
   */
  function Search(s: string, from: nat): (r: Option<Match>)
    requires from <= |s|
    ensures r.Some? ==> from <= r.value.i && MatchAt(s, r.value.i, r.value.k, r.value.d, r.value.e, r.value.c)
    ensures r.Some? ==> forall i, k, d, e, c :: from <= i < r.value.i ==> !MatchAt(s, i, k, d, e, c)
    ensures r.Some? ==> forall k, d, e, c :: MatchAt(s, r.value.i, k, d, e, c) ==>
      k <= r.value.k && (k == r.value.k ==> d == r.value.d && e == r.value.e && c <= r.value.c)
    ensures r.None? ==> forall i, k, d, e, c :: from <= i ==> !MatchAt(s, i, k, d, e, c)
    decreases |s| - from
  {
    if from == |s| then None
    else match MatchFrom(s, from)
      case Some(m) => Some(m)
      case None => Search(s, from + 1)
  }

  /** A client session: the three regular-expression groups, overridden by like-named items. */
  datatype Session = Session(host: string, port: string, serverId: nat, interestOps: string, attrs: map<string, string>)

  /** `k, v = item.split("=")`: exactly one `=`, otherwise `ValueError`. */
  function ParseItem(item: string): (r: Option<(string, string)>)
    ensures r.Some? <==> Count(item, '=') == 1
    ensures r.Some? ==> '=' !in r.value.0 && '=' !in r.value.1 && r.value.0 + "=" + r.value.1 == item
  {
    var parts := Split(item, '=');
    if |parts| != 2 then None
    else
      assert Join(parts[1..], '=') == parts[1];
      Some((parts[0], parts[1]))
  }

  /** Every item has exactly one `=`. */
  predicate WellFormedItems(items: seq<string>) {
    forall j :: 0 <= j < |items| ==> Count(items[j], '=') == 1
  }

  /** The items split at their `=`, or `None` as soon as one has not exactly one `=`. */
  function ParsePairs(items: seq<string>): (r: Option<seq<(string, string)>>)
    ensures r.Some? <==> WellFormedItems(items)
    ensures r.Some? ==> |r.value| == |items|
    ensures r.Some? ==> forall j :: 0 <= j < |items| ==> '=' !in r.value[j].0 && ItemText(r.value[j]) == items[j]
  {
    if |items| == 0 then Some([])
    else match ParseItem(items[0])
      case None => None
      case Some(kv) =>
        match ParsePairs(items[1..])
        case None =>
          assert !WellFormedItems(items[1..]);
          None
        case Some(rest) => Some([kv] + rest)
  }

  /** Each pair is one assignment. */
  function Assignments(pairs: seq<(string, string)>): (r: seq<Option<(string, string)>>)
    ensures |r| == |pairs| && forall j :: 0 <= j < |pairs| ==> r[j] == Some(pairs[j])
  {
    seq(|pairs|, j requires 0 <= j < |pairs| => Some(pairs[j]))
  }

  /** The comma-separated `key=value` items of the last group, assigned in order. */
  function ParseItems(detail: string): (r: Option<map<string, string>>)
    ensures r.Some? <==> WellFormedItems(Split(detail, ','))
  {
    match ParsePairs(Split(detail, ','))
    case None => None
    case Some(pairs) => Some(Build(Assignments(pairs)))
  }

  /** The attribute `name`: an item's value if one was named so, else the group. */
  function Attr(attrs: map<string, string>, name: string, group: string): string {
    if name in attrs then attrs[name] else group
  }

  /** The four groups of a match: address, port, interest set and the item list. */
  datatype Groups = Groups(host: string, port: string, ops: string, detail: string)

  /** The delimiters of the pattern at the positions of `m`, in order, within `s`. */
  predicate Delimited(s: string, m: Match) {
    && m.i < m.k < m.d < m.e && m.e + 1 < m.c < |s|
    && s[m.i] == '/' && s[m.k] == ':' && s[m.d] == '[' && s[m.e] == ']' && s[m.e + 1] == '(' && s[m.c] == ')'
  }

  /** The text of the groups of a match found in `s`. */
  function GroupsAt(s: string, m: Match): Groups
    requires Delimited(s, m)
  {
    Groups(s[m.i + 1..m.k], s[m.k + 1..m.d], s[m.d + 1..m.e], s[m.e + 2..m.c])
  }

  /**
   `Session(line.strip(), server_id)`. `None` when the constructor raises:
   no match (`AttributeError`) or an item without exactly one `=`.
   */
  function ParseSession(line: string, serverId: nat): (r: Option<Session>)
    ensures (forall i, k, d, e, c :: !MatchAt(Strip(line), i, k, d, e, c)) ==> r.None?
    ensures r.Some? ==> r.value.serverId == serverId
  {
    SessionOf(Strip(line), serverId)
  }

  /** The constructor on text that is already stripped. */
  function SessionOf(s: string, serverId: nat): (r: Option<Session>)
    ensures (forall i, k, d, e, c :: !MatchAt(s, i, k, d, e, c)) ==> r.None?
    ensures r.Some? ==> r.value.serverId == serverId
  {
    match Search(s, 0)
    case None => None
    case Some(m) => SessionFrom(GroupsAt(s, m), serverId)
  }

  /**
   The session the groups of a match describe: the items are parsed first
   (raising on a malformed one), then each group is overridden by a
   like-named item.
   */
  function SessionFrom(g: Groups, serverId: nat): (r: Option<Session>)
    ensures r.Some? <==> ParseItems(g.detail).Some?
    ensures r.Some? ==> r.value.serverId == serverId && r.value.attrs == ParseItems(g.detail).value
  {
    match ParseItems(g.detail)
    case None => None
    case Some(attrs) =>
      Some(Session(Attr(attrs, "host", g.host), Attr(attrs, "port", g.port), serverId, Attr(attrs, "interest_ops", g.ops), attrs))
  }

  /** `s` is laid out as a session line with the given positions, ending at `c`. */
  predicate LaidOut(s: string, k: int, d: int, e: int, c: int) {
    MatchAt(s, 0, k, d, e, c) && c == |s| - 1
  }

  /** A line laid out as one match from its first to its last character is parsed by that match. */
  lemma SearchLaidOut(s: string, k: nat, d: nat, e: nat, c: nat)
    requires LaidOut(s, k, d, e, c)
    ensures Search(s, 0) == Some(Match(0, k, d, e, c))
  {
    assert !IsHostChar(s[d]);
    assert forall j :: k < j < d ==> IsDecimal(s[j]);
  }

  /** The text of one `key=value` item. */
  function ItemText(kv: (string, string)): string {
    kv.0 + "=" + kv.1
  }

  function ItemTexts(items: seq<(string, string)>): (r: seq<string>)
    ensures |r| == |items|
    ensures forall j :: 0 <= j < |items| ==> r[j] == ItemText(items[j])
  {
    seq(|items|, j requires 0 <= j < |items| => ItemText(items[j]))
  }

  /** The session line the server prints for a connection. */
  function SessionText(host: string, port: string, ops: string, items: seq<(string, string)>): string {
    "/" + host + ":" + port + "[" + ops + "](" + Join(ItemTexts(items), ',') + ")"
  }

  /** Item keys and values the server prints: no `=`, `,` or newline. */
  predicate PlainItem(kv: (string, string)) {
    && '=' !in kv.0 && ',' !in kv.0 && '\n' !in kv.0
    && '=' !in kv.1 && ',' !in kv.1 && '\n' !in kv.1
  }

  /** Every character of a join is the separator or a character of a piece. */
  lemma {:induction false} JoinChars(parts: seq<string>, sep: char, x: char)
    requires x in Join(parts, sep) && x != sep
    ensures exists j :: 0 <= j < |parts| && x in parts[j]
  {
    if |parts| == 1 {
      assert x in parts[0];
    } else if |parts| > 1 {
      var rest := Join(parts[1..], sep);
      assert Join(parts, sep) == parts[0] + [sep] + rest;
      if x in parts[0] {
      } else {
        assert x in rest;
        JoinChars(parts[1..], sep, x);
        var j :| 0 <= j < |parts[1..]| && x in parts[1..][j];
        assert x in parts[j + 1];
      }
    }
  }

  /** A printed item splits back into its key and value. */
  lemma ParseItemText(kv: (string, string))
    requires PlainItem(kv)
    ensures ParseItem(ItemText(kv)) == Some(kv)
  {
    var parts := [kv.0, kv.1];
    assert Join(parts, '=') == ItemText(kv) by {
      assert Join(parts[1..], '=') == kv.1;
    }
    SplitJoin(parts, '=');
  }

  /** Printed items are split back into their keys and values. */
  lemma {:induction false} ParsePairsText(items: seq<(string, string)>)
    requires forall j :: 0 <= j < |items| ==> PlainItem(items[j])
    ensures ParsePairs(ItemTexts(items)) == Some(items)
  {
    if |items| > 0 {
      var texts := ItemTexts(items);
      ParseItemText(items[0]);
      assert texts[1..] == ItemTexts(items[1..]);
      ParsePairsText(items[1..]);
      assert items == [items[0]] + items[1..];
    }
  }

  /** The items of a printed list are read back in order. */
  lemma ParseItemsText(items: seq<(string, string)>)
    requires |items| > 0
    requires forall j :: 0 <= j < |items| ==> PlainItem(items[j])
    ensures ParseItems(Join(ItemTexts(items), ',')) == Some(Build(Assignments(items)))
  {
    var texts := ItemTexts(items);
    forall j | 0 <= j < |texts|
      ensures ',' !in texts[j]
    {
      assert texts[j] == items[j].0 + "=" + items[j].1;
    }
    SplitJoin(texts, ',');
    ParsePairsText(items);
  }

  /** A printed item list has no newline. */
  lemma ItemsNoNewline(items: seq<(string, string)>)
    requires forall j :: 0 <= j < |items| ==> PlainItem(items[j])
    ensures '\n' !in Join(ItemTexts(items), ',')
  {
    if '\n' in Join(ItemTexts(items), ',') {
      JoinChars(ItemTexts(items), ',', '\n');
    }
  }

  /** Where the groups of a printed session line lie. */
  lemma SessionTextLaidOut(host: string, port: string, ops: string, detail: string, s: string)
    requires |host| > 0 && HostRun(host, 0, |host|)
    requires |port| > 0 && DigitRun(port, 0, |port|)
    requires |ops| > 0 && DigitRun(ops, 0, |ops|)
    requires '\n' !in detail
    requires s == "/" + host + ":" + port + "[" + ops + "](" + detail + ")"
    ensures var k := |host| + 1; var d := k + 1 + |port|; var e := d + 1 + |ops|;
      && LaidOut(s, k, d, e, e + 2 + |detail|)
      && s[1..k] == host && s[k + 1..d] == port && s[d + 1..e] == ops && s[e + 2..e + 2 + |detail|] == detail
  {
    var k := |host| + 1;
    var d := k + 1 + |port|;
    var e := d + 1 + |ops|;
    var c := e + 2 + |detail|;
    assert |s| == c + 1;
    assert s[1..k] == host && s[k + 1..d] == port && s[d + 1..e] == ops && s[e + 2..c] == detail;
    assert s[0] == '/' && s[k] == ':' && s[d] == '[' && s[e] == ']' && s[e + 1] == '(' && s[c] == ')';
    assert HostRun(s, 1, k) by {
      forall j | 1 <= j < k ensures IsHostChar(s[j]) { assert s[j] == host[j - 1]; }
    }
    assert DigitRun(s, k + 1, d) by {
      forall j | k + 1 <= j < d ensures IsDecimal(s[j]) { assert s[j] == port[j - k - 1]; }
    }
    assert DigitRun(s, d + 1, e) by {
      forall j | d + 1 <= j < e ensures IsDecimal(s[j]) { assert s[j] == ops[j - d - 1]; }
    }
    forall j | e + 2 <= j < c
      ensures s[j] != '\n'
    {
      assert s[j] == detail[j - e - 2];
    }
  }

  /** In a printed session line the search finds the printed groups. */
  lemma SessionTextGroups(host: string, port: string, ops: string, items: seq<(string, string)>)
    requires |host| > 0 && HostRun(host, 0, |host|)
    requires |port| > 0 && DigitRun(port, 0, |port|)
    requires |ops| > 0 && DigitRun(ops, 0, |ops|)
    requires forall j :: 0 <= j < |items| ==> PlainItem(items[j])
    ensures var s := SessionText(host, port, ops, items);
      && Strip(s) == s && Search(s, 0).Some?
      && GroupsAt(s, Search(s, 0).value) == Groups(host, port, ops, Join(ItemTexts(items), ','))
  {
    var detail := Join(ItemTexts(items), ',');
    var s := SessionText(host, port, ops, items);
    var k := |host| + 1;
    var d := k + 1 + |port|;
    var e := d + 1 + |ops|;
    var c := e + 2 + |detail|;
    ItemsNoNewline(items);
    SessionTextLaidOut(host, port, ops, detail, s);
    LaidOutFound(s, k, d, e, c);
    LaidOutGroups(s, k, d, e, c);
  }

  /** The groups of a laid-out line are the text between its delimiters. */
  lemma LaidOutGroups(s: string, k: nat, d: nat, e: nat, c: nat)
    requires LaidOut(s, k, d, e, c)
    ensures GroupsAt(s, Match(0, k, d, e, c)) == Groups(s[1..k], s[k + 1..d], s[d + 1..e], s[e + 2..c])
  {
  }

  /**
   A session line as the server prints it parses into its address, port and
   interest set, overridden by like-named items, with every item recorded.
   */
  lemma ParseSessionText(host: string, port: string, ops: string, items: seq<(string, string)>, serverId: nat)
    requires |host| > 0 && HostRun(host, 0, |host|)
    requires |port| > 0 && DigitRun(port, 0, |port|)
    requires |ops| > 0 && DigitRun(ops, 0, |ops|)
    requires |items| > 0 && forall j :: 0 <= j < |items| ==> PlainItem(items[j])
    ensures var attrs := Build(Assignments(items));
      ParseSession(SessionText(host, port, ops, items), serverId)
      == Some(Session(Attr(attrs, "host", host), Attr(attrs, "port", port), serverId, Attr(attrs, "interest_ops", ops), attrs))
  {
    SessionTextGroups(host, port, ops, items);
    ParseItemsText(items);
  }

  /** A laid-out line is its own stripped form, and the search finds its layout. */
  lemma LaidOutFound(s: string, k: nat, d: nat, e: nat, c: nat)
    requires LaidOut(s, k, d, e, c)
    ensures Strip(s) == s && Search(s, 0) == Some(Match(0, k, d, e, c))
  {
    assert s[0] == '/' && s[|s| - 1] == ')';
    SearchLaidOut(s, k, d, e, c);
  }
}
