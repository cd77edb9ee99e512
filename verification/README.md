# zktop in Dafny

A model of the core of `zktop.py`, a `top`-like terminal monitor for a
ZooKeeper ensemble. A poller asks each server for its `stat` report and
queues what it gets. The main loop takes the records off the queue and
hands each one to three windows:

- the **summary** line, with the largest node count, the largest zxid and
  the total number of client sessions;
- the **server table**, with one row per server: mode letter, counters and
  latencies;
- the **client table**, with every server's sessions merged and sorted by
  queued requests, largest first.

The loop also reads keys: `q` quits, `h` shows help, `r` resets the
statistics and space refreshes. It shows a flash message for five seconds.

The modules follow the program's parts:

| module | file | models |
|---|---|---|
| `Wrappers` | wrappers.dfy | `Option`, a map that fails at the first failing element (a Python loop that raises), and the prefix up to the first failure (a loop that `break`s) |
| `Text` | text.dfy | `str.strip`, `rstrip`, `split`, `replace`, `lower`, `upper` and slicing, on `seq<char>` |
| `PyInt` | pyint.dfy | `int(s, 10)` and `int(s, 16)`, with Python's acceptance rules |
| `Assoc` | assoc.dfy | a dict filled by assignments in order (`setattr` loops, `config[k] = v`) |
| `SessionLine` | session_line.dfy | `Session.__init__`: the session regular expression and the `k=v` items |
| `StatResponse` | stat_response.dfy | `ZKServer.__init__`: the `stat` reply parsed into version, sessions and attributes |
| `Summary` | summary.dfy | `SummaryUI` |
| `ServerTable` | server_table.dfy | `ServerUI` and the clipping in `BaseUI.addstr` |
| `StableSort` | stable_sort.dfy | `list.sort(key=..., reverse=True)` on integer keys: stable, descending |
| `SessionTable` | session_table.dfy | `SessionUI` |
| `Dashboard` | dashboard.dfy | the queue drain: each record goes to the three windows |
| `MainLoop` | main_loop.dfy | key dispatch and the flash countdown of `Main.show_ui` |
| `Config` | config.dfy | `get_zk_servers` from a server list, and `read_zk_config` |

Every place where the Python code raises is modelled as `None`:

- A raise inside a `try` is modelled by what that handler does. In
  `ZKServer` the server becomes unavailable. In the client table's row loop
  the drawing stops.
- A raise outside any `try` ends the thread it happens in. An exception
  in one of the three windows' updates ends the main loop, and with it the
  program (`Dashboard.Deliver` is `None`). The `server.split(':')` in
  `ZKServer` raises in a polling thread (`StatResponse.Poll` is `None`), for
  an entry with two or more `:` such as an IPv6 address, which the server
  list passes through unchanged. That poller dies holding the wake-up
  lock, so every other poller then blocks when its `wait` tries to take the
  lock back, and the main loop blocks at its next `wakeup_poller` (on `r`,
  space or a resize). Threads are left out of the model.

Python's integers are unbounded, and so are Dafny's `int`. The model has no
fixed-width arithmetic.

Two consequences of the code are easy to miss:

- A first stat line without `: `, such as `1.2.3-dirty`, yields no
  version, so the server is reported unavailable
  (`StatResponse.NoColonSpaceNoVersion`).
- An attribute line `Znode count: ...` normalises to `znode_count`, not
  `node_count`, so the summary update raises on such a reply
  (`Summary.MissingNodeCountRaises`).

## Model

| member | source | states |
|---|---|---|
| SessionLine.Search | zktop.py:83 | `re.search` of the session pattern: the first match is at the leftmost start that has one; there, the address group is the longest, then the last group is the longest; `None` exactly when nothing matches from that start on |
| SessionLine.ParseItems | zktop.py:88-90 | the items parse exactly when every comma-separated item holds exactly one `=` (otherwise `k,v = d.split("=")` raises) |
| SessionLine.SessionFrom | zktop.py:84-90 | a session is built exactly when its items parse; it keeps the given server id and records every item |
| SessionLine.ParseSession | zktop.py:80-90 | a stripped line with no match anywhere gives no session (`m.group` on `None` raises); a parsed session carries the server id it was given |
| SessionLine.ParseSessionText | zktop.py:80-90 | round trip: a line laid out the way the server prints sessions parses back into its address, port and interest set, each overridden by a like-named item, with every item recorded and the last duplicate winning |
| StatResponse.LinesUnlines | zktop.py:98-108 | reading lines back from text written as newline-terminated lines gives the same lines |
| StatResponse.VersionOf | zktop.py:100-101 | the version is `None` exactly when no position of the first line matches `: d+.d+.d+-`; otherwise it is the `d+.d+.d+` text of the match with the last start, which the greedy leading `.*` selects |
| StatResponse.VersionRoundTrip | zktop.py:100-101 | round trip: `prefix: M.m.p-suffix` reads back as `M.m.p`, whatever the prefix, when no `:` in the suffix is followed by a space (a build time such as `09:09` is allowed) |
| StatResponse.NoColonSpaceNoVersion | zktop.py:100-101 | a first line without `: ` never yields a version, so the server is unavailable |
| StatResponse.ParseSessions | zktop.py:104-107 | the session lines give sessions exactly when every line parses, one session per line in order |
| StatResponse.AttrName | zktop.py:110 | each character of the stripped raw name is kept lower-cased, except that a space or `/` becomes `_`; so the name holds no space, `/` or upper-case ASCII letter |
| StatResponse.LatencyName | zktop.py:110-113 | the reply's `Latency min/avg/max` line becomes the attribute that is later split into three |
| StatResponse.AttrLine | zktop.py:109-111 | an attribute line is accepted exactly when it holds one `:`; the result is the normalised name before it and the stripped value after it |
| StatResponse.ParseAttrs | zktop.py:108-111 | the attributes parse exactly when every attribute line holds one `:`; the map then holds exactly the names the lines assign, each with the value of its last line |
| StatResponse.AttrLineText | zktop.py:109-111 | a printed `Name: value` line, with no `:` in name or value and the value without surrounding white space, reads back as the normalised name and the value |
| StatResponse.AttrTextsParse | zktop.py:108-111 | a printed attribute section reads back as the normalised names with their values, in order |
| StatResponse.ClientLinesParse | zktop.py:104-107 | printed client lines are never blank and read back as their sessions, one per line in order |
| StatResponse.Latencies | zktop.py:113 | the latency splits exactly when the attribute exists and holds two `/`; the three parts joined with `/` give it back |
| StatResponse.ParseLines | zktop.py:99-115 | a reply parses exactly when it is non-empty, its first line carries a version, its body has a blank line, every client line before that blank line parses, every attribute line after it has exactly one `:` and the latency splits into three; the report then holds that version, those sessions, those attributes and those latencies |
| StatResponse.SecondLineIgnored | zktop.py:102 | the second line of the reply has no effect |
| StatResponse.NoBlankNoStat | zktop.py:104-113 | without a blank line after the sessions there are no attributes and no latency, so the server is unavailable |
| StatResponse.BlankSeparates | zktop.py:104-108 | the first blank line splits the body into session lines and attribute lines |
| StatResponse.ComposedReply | zktop.py:97-115 | round trip: a reply printed from a banner, any second line, client connections, a blank line and `Name: value` attributes parses exactly when the attributes give a three-part latency, and then into the banner's version, the clients' sessions in order, and every normalised name with its last value |
| StatResponse.Poll | zktop.py:92-121 | a record exists exactly when `server.split(':')` gives two parts, and the two parts joined give the server back; the server is available exactly when the reply arrived and parsed, and it holds that parse |
| StatResponse.EmptyReplyUnavailable | zktop.py:96-121 | an empty reply makes the server unavailable |
| PyInt.ParseInt | zktop.py:210-211 | `int()` of blank text raises |
| PyInt.ParseDecimalRoundTrip | zktop.py:210 | round trip: `int(str(n)) == n` for every integer |
| PyInt.ParseHexRoundTrip | zktop.py:211 | round trip: `int('0x%x' % n, 16) == n`, the form in which the server reports a zxid |
| Summary.Initial | zktop.py:198-200 | at start every server's slot holds zeros in all three lists |
| Summary.Update | zktop.py:202-211 | an update fails exactly when the server id is out of range or the contribution raises; otherwise only the server's own slot changes, and it takes the contribution |
| Summary.Max | zktop.py:212-213 | `max` returns an element of the list that is at least every element |
| Summary.SumOverwrite | zktop.py:214 | overwriting one slot changes the sum by the difference |
| Summary.UpdateSessions | zktop.py:209-214 | one update moves the session total by the change in that server's own count |
| Summary.RunSlots | zktop.py:202-211 | after any run of updates, each slot holds the contribution of its server's latest record, or zeros if it has none |
| Summary.RunTotals | zktop.py:202-216 | after any run of updates the line shows the maximum latest node count, the maximum latest zxid and the sum of the latest session counts |
| Summary.UnavailableCountsZero | zktop.py:204-207 | a server last seen unavailable counts zero in all three lists |
| Summary.MissingNodeCountRaises | zktop.py:210 | an available server whose reply lacks `node_count` makes the update raise |
| ServerTable.Clip | zktop.py:189-191 | the text written is a prefix of the line, `maxx - 1` characters long when the line is longer; a window narrower than one column cuts from the end, as Python's negative slice bound does |
| ServerTable.ClipKeepsShort | zktop.py:191 | a line shorter than the window width is written whole |
| ServerTable.ClipIdempotent | zktop.py:191 | clipping twice to the same width is the same as clipping once |
| ServerTable.ModeLetter | zktop.py:230 | the mode letter is empty for an empty mode and otherwise the first character of the mode, upper-cased if it is an ASCII lower-case letter |
| ServerTable.ServerRowOf | zktop.py:227-236 | a server's row goes on line `server_id + 2`, with the host clipped to 15 characters; an unavailable server shows `U` and no counters; an available one raises exactly when `mode`, `outstanding`, `received` or `sent` is missing, and otherwise shows its number of sessions as connections |
| ServerTable.RowsInWindow | zktop.py:220-236 | a row lies below line 0 (under the main loop's flash message) and the header on line 1, inside the `server_count + 2` lines of the window exactly when its server id is below `server_count`, and two servers' rows share a line exactly when they are the same server |
| StableSort.Sort | zktop.py:250 | the sorted order lists each position once, by key from largest down, with equal keys in their original order |
| StableSort.InsertionPermutes | zktop.py:250 | sorting keeps the same items with the same multiplicities |
| StableSort.SortDescendingSpec | zktop.py:250 | `sort(key=..., reverse=True)` is a permutation of the items, with keys descending and equal keys keeping their relative order |
| SessionTable.Replace | zktop.py:246 | replacing a server's list raises exactly when the server id is out of range; otherwise only that server's list changes, and it becomes the record's sessions |
| SessionTable.FlattenSlot | zktop.py:247-249 | in the merged list a server's sessions come after those of every server with a smaller id and before those with a larger one |
| SessionTable.ReplacedMerge | zktop.py:246-249 | after an update the merged list is the other servers' old sessions around the new sessions of this server |
| SessionTable.UnavailableLeavesTable | zktop.py:246-249 | an unavailable server's sessions disappear from the merged list |
| SessionTable.SortSessions | zktop.py:250 | the sort raises exactly when some session's key fails; it keeps the length |
| SessionTable.SortSessionsSpec | zktop.py:250 | the sorted table holds exactly the merged sessions, with `queued` descending and equal `queued` in merged order |
| SessionTable.DrawRow | zktop.py:252-260 | a row is drawn exactly when the lookup succeeds (with `-n`), `recved` and `sent` exist and the line fits the window; it goes on line `i + 2` and shows this session: its address or looked-up name clipped to 15 characters, its port, server id, interest set, `queued`, `recved` and `sent` |
| SessionTable.DrawFrom | zktop.py:251-260 | the rows drawn are the sorted sessions' rows in order up to the first failing row, which ends the drawing |
| SessionTable.Update | zktop.py:243-260 | an update succeeds exactly when the window has room for the header on line 1 (written outside the `try`), the server id is in range and the merged list with this server's new sessions sorts |
| SessionTable.UpdateSpec | zktop.py:243-260 | an update happens only in a window of at least two lines, replaces only this server's list, the merged list sorts, and the drawn rows are the rows of the sorted merged list from its first session on, on consecutive lines from line 2, stopping exactly at the first session whose row raises |
| Dashboard.Start | zktop.py:279-283 | at start there is one slot and one empty session list per server, and the two windows agree |
| Dashboard.Deliver | zktop.py:302-305 | a record is delivered exactly when none of the three windows' updates raises (among them the client header write, which needs a window of two lines), and the per-server state keeps its size; the new state is the summary's and the client table's updated state, and the screen shows the summary figures of the new slots, the server's row and the client rows those updates drew |
| Dashboard.DeliverAgrees | zktop.py:302-305 | after a delivered record the summary still counts, for every server, exactly the sessions the client table holds for it |
| Dashboard.TotalIsTableSize | zktop.py:209-249 | when the windows agree, the session total on the summary line equals the number of sessions in the merged client list |
| Dashboard.DeliverAllAgrees | zktop.py:302-305 | the windows keep agreeing over any run of delivered records |
| MainLoop.CommandOf | zktop.py:307-325 | only key codes 1 to 255 count; `q`, `h`, `r` and space are the commands, every other code is ignored |
| MainLoop.Step | zktop.py:307-333 | a pass ends the loop exactly on `q`; `h` and `r` show their message on that same pass; only `r` and space wake the pollers, and only `r` resets the statistics |
| MainLoop.StepSettled | zktop.py:311-333 | between passes a shown message is one of the two texts and has between 1 and 19 passes left, whatever key arrives |
| MainLoop.Run | zktop.py:295-333 | a sequence of keys ends the loop exactly when it contains `q`; otherwise every key gives one pass |
| MainLoop.Countdown | zktop.py:327-333 | a message with `k` passes left shows on exactly the next `k` passes without a key, then never again |
| MainLoop.HelpLastsFiveSeconds | zktop.py:311-333 | after `h`, the help text shows on that pass and the following 19 quiet passes (20 passes of 250 ms), and never after |
| Config.DefaultedEntrySplits | zktop.py:377 | an entry given without a port splits at its one `:` into the stripped host and `2181` |
| Config.ServerListEntries | zktop.py:376-378 | the completed list has one entry per input entry, in order; each entry holds a `:`, and entries that had a port are unchanged |
| Config.ServerListIdempotent | zktop.py:376-378 | completing an already completed list changes nothing |
| Config.OutcomeSpec | zktop.py:361-362 | exactly the blank lines and `#` lines are skipped; a line ends the reading exactly when, without its spaces and stripped, it holds no `=`; otherwise the key is what precedes the first `=` |
| Config.ReadConfig | zktop.py:356-368 | the dict holds exactly the keys assigned before the first line without `=`, each with the value of its last assignment |
| Config.ConfigRoundTrip | zktop.py:360-363 | round trip: a file written as `key=value` lines from plain pairs reads back as exactly those assignments, in order |
| Config.SkippedLineIgnored | zktop.py:361 | a skipped line before the first stopping line does not change the dict |
| Config.StopEndsReading | zktop.py:362-368 | lines after the first line without `=` are never read: the `return` in `finally` swallows the unpacking error |

## Left out

- Sockets, `send_cmd`, the `stat` and `srst` commands and the connection timeout are left out. The reply is a parameter `Reply`: the text received, or a failure. A failed ASCII decode and a non-numeric port are counted as failures.
- `reset_server_stats` and `wakeup_poller` are left out. `MainLoop.Step` only reports whether a pass resets and whether it wakes the pollers.
- Threads, the queue, the wake-up condition and the three-second poll interval are left out. The records delivered are a sequence parameter. The server ids are the positions in the server list, which is how the global counter numbers the pollers.
- curses is left out: windows, `erase`, `clrtoeol`, `noutrefresh`, colours, and the resizing on `SIGWINCH`. `ServerTable.Clip` models only the width clipping. The client window's height is a parameter. A row written past that height raises inside the row loop's `try` and ends the client drawing. The header on line 1 is written before that `try`, so a client window under two lines makes every update raise and ends the program.
- The `%` format widths are left out, and so is the text of the summary line. Rows are modelled by the values of their cells.
- `SessionTable.DrawRow`: the reverse name lookup (`getnameinfo`) is a function parameter. With `-n`, the source also stores the looked-up name in the session's `host`, so later updates look up a name rather than an address. This is not modelled, and each update looks up the address afresh.
- `SessionLine.ParseSession` and `StatResponse.Poll`: `setattr` can overwrite any attribute. The model covers an item named `host`, `port` or `interest_ops`. It does not cover an attribute line named `host` or `port`, which overwrites the host or port the server row prints, nor an item or an attribute line that overwrites `server_id`, `sessions`, `version`, `unavailable` or the latencies.
- `PyInt.ParseInt` follows Python 3.6 and later: single `_` separators between digits, and after a `0x` prefix, are accepted. Python 2's `int()`, which the script also runs under, rejects them. The non-ASCII decimal digits that Python 3's `int()` also accepts are not modelled.
- `Text.Lower` and `Text.Upper` change ASCII letters only. The attribute names and mode letters in a `stat` reply are ASCII.
- `KeyboardInterrupt`, option parsing and logging are left out.
- The `--config` branch of `get_zk_servers` is left out. It takes `clientPort` and the `server.N` keys of the config dict in the dict's iteration order. `read_zk_config` itself is modelled. The lines of the file are a parameter. A file that cannot be opened raises before the `try`, and that is not modelled.
- `flash_count = 1000/TIMEOUT * 5` is the float `20.0` under Python 3 and the integer 20 under Python 2. It counts down to zero exactly in both, so the model uses the integer.
