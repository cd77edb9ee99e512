/**
 The key handling and the flash message of the main loop (`Main.show_ui`).
 Every pass waits up to `TIMEOUT` milliseconds for a key, reacts to it,
 and then shows the flash message, if any, counting down its remaining
 passes.
 */
module MainLoop {
  import opened Wrappers

  /** `TIMEOUT`: how long one pass waits for a key, in milliseconds. */
  const Timeout: nat := 250

  /** `1000/TIMEOUT * 5`: a flash message stays for five seconds' worth of passes. */
  const FlashPasses: nat := 1000 / Timeout * 5

  const HelpText: string := "Help: q:quit r:reset stats spc:refresh"
  const ResetText: string := "Server stats reset"

  /** What `getch` returns when no key arrived within the timeout. */
  const NoKey: int := -1

  /** The keys the loop reacts to. */
  datatype Command = Quit | Help | ResetStats | Refresh | Ignored

  /** `getch()`'s result decoded: only codes 1 to 255 are considered, and of those only `q`, `h`, `r` and space. */
  function CommandOf(ch: int): (c: Command)
    ensures c != Ignored ==> 0 < ch <= 255
    ensures c == Quit <==> ch == 'q' as int
    ensures c == Help <==> ch == 'h' as int
    ensures c == ResetStats <==> ch == 'r' as int
    ensures c == Refresh <==> ch == ' ' as int
  {
    if !(0 < ch <= 255) then Ignored
    else if ch == 'q' as int then Quit
    else if ch == 'h' as int then Help
    else if ch == 'r' as int then ResetStats
    else if ch == ' ' as int then Refresh
    else Ignored
  }

  /** `flash` and `flash_count`. */
  datatype Flash = Flash(text: Option<string>, count: int)

  /** What one pass did besides the flash: whether it woke the pollers and whether it reset the servers' statistics. */
  datatype Pass = Pass(flash: Flash, shown: Option<string>, wake: bool, reset: bool)

  /**
   One pass of the loop after the queue is drained: `None` when `q` ends
   the loop; otherwise the key's effect, then the flash message shown once
   more and its count decremented, the message dropped when the count
   reaches zero.
   */
  function Step(f: Flash, ch: int): (r: Option<Pass>)
    ensures r.None? <==> ch == 'q' as int
    ensures r.Some? && CommandOf(ch) == Help ==> r.value.shown == Some(HelpText)
    ensures r.Some? && CommandOf(ch) == ResetStats ==> r.value.shown == Some(ResetText) && r.value.reset && r.value.wake
    ensures r.Some? ==> (r.value.wake <==> CommandOf(ch) in {ResetStats, Refresh})
    ensures r.Some? ==> (r.value.reset <==> CommandOf(ch) == ResetStats)
  {
    var cmd := CommandOf(ch);
    if cmd == Quit then None
    else
      var f1 := match cmd
        case Help => Flash(Some(HelpText), FlashPasses)
        case ResetStats => Flash(Some(ResetText), FlashPasses)
        case _ => f;
      var wake := cmd == ResetStats || cmd == Refresh;
      match f1.text
      case None => Some(Pass(f1, None, wake, cmd == ResetStats))
      case Some(t) =>
        var left := f1.count - 1;
        Some(Pass(Flash(if left == 0 then None else f1.text, left), f1.text, wake, cmd == ResetStats))
  }

  /** Between passes a message is one of the two flash texts and has between 1 and `FlashPasses - 1` passes left. */
  predicate Settled(f: Flash) {
    f.text.Some? ==> f.text.value in {HelpText, ResetText} && 1 <= f.count < FlashPasses
  }

  /** No message when the loop starts. */
  lemma StartSettled()
    ensures Settled(Flash(None, 0))
  {
  }

  /** Every pass that does not quit leaves the flash settled, whatever key it read. */
  lemma StepSettled(f: Flash, ch: int)
    requires Settled(f) && ch != 'q' as int
    ensures Settled(Step(f, ch).value.flash)
  {
  }

  /** What the passes show for a sequence of key codes, up to the first `q`; `quit` says whether one came. */
  function Run(f: Flash, keys: seq<int>): (r: (seq<Option<string>>, bool))
    ensures |r.0| <= |keys|
    ensures r.1 <==> 'q' as int in keys
    ensures !r.1 ==> |r.0| == |keys|
    decreases |keys|
  {
    if |keys| == 0 then ([], false)
    else match Step(f, keys[0])
      case None => ([], true)
      case Some(p) =>
        var rest := Run(p.flash, keys[1..]);
        assert keys == [keys[0]] + keys[1..];
        ([p.shown] + rest.0, rest.1)
  }

  /** `n` passes without a key. */
  function Idle(n: nat): (keys: seq<int>)
    ensures |keys| == n && forall i :: 0 <= i < n ==> keys[i] == NoKey
  {
    seq(n, _ => NoKey)
  }

  /** A message with `k` passes left is shown on exactly the next `k` passes without a key, then disappears. */
  lemma {:induction false} Countdown(t: string, k: nat, n: nat)
    requires k >= 1
    ensures forall i :: 0 <= i < n ==> Run(Flash(Some(t), k), Idle(n)).0[i] == if i < k then Some(t) else None
  {
    if n > 0 {
      var f := Flash(Some(t), k);
      var keys := Idle(n);
      assert keys[0] == NoKey && keys[1..] == Idle(n - 1);
      var p := Step(f, NoKey).value;
      assert p.shown == Some(t);
      assert p.flash == if k > 1 then Flash(Some(t), k - 1) else Flash(None, 0);
      assert Run(f, keys).0 == [p.shown] + Run(p.flash, keys[1..]).0;
      if k > 1 {
        Countdown(t, k - 1, n - 1);
      } else {
        Silent(n - 1);
      }
      var shown := Run(f, keys).0;
      var rest := Run(p.flash, Idle(n - 1)).0;
      forall i | 0 <= i < n
        ensures shown[i] == if i < k then Some(t) else None
      {
        if i > 0 {
          assert shown[i] == rest[i - 1];
        }
      }
    }
  }

  /** Without a message and without keys nothing is shown. */
  lemma {:induction false} Silent(n: nat)
    ensures forall i :: 0 <= i < n ==> Run(Flash(None, 0), Idle(n)).0[i] == None
  {
    if n > 0 {
      var f := Flash(None, 0);
      var keys := Idle(n);
      assert keys[0] == NoKey && keys[1..] == Idle(n - 1);
      var p := Step(f, NoKey).value;
      assert p.shown == None && p.flash == f;
      assert Run(f, keys).0 == [p.shown] + Run(p.flash, keys[1..]).0;
      Silent(n - 1);
    }
  }

  /**
   After `h` the help line is shown on that pass and the next 19 passes
   without a key, five seconds in all, and on none after, whatever was
   being shown before.
   */
  lemma HelpLastsFiveSeconds(f: Flash, n: nat)
    ensures var shown := Run(f, ['h' as int] + Idle(n)).0;
      && |shown| == n + 1
      && forall i :: 0 <= i <= n ==> shown[i] == if i < FlashPasses then Some(HelpText) else None
  {
    assert FlashPasses == 20;
    var keys := ['h' as int] + Idle(n);
    assert keys[0] == 'h' as int && keys[1..] == Idle(n);
    var p := Step(f, 'h' as int).value;
    var help := Flash(Some(HelpText), 19);
    assert p.flash == help && p.shown == Some(HelpText);
    var shown := Run(f, keys).0;
    var rest := Run(help, Idle(n)).0;
    assert shown == [p.shown] + rest;
    Countdown(HelpText, 19, n);
    forall i | 0 <= i <= n
      ensures shown[i] == if i < FlashPasses then Some(HelpText) else None
    {
      if i > 0 {
        assert shown[i] == rest[i - 1];
      }
    }
  }
}
