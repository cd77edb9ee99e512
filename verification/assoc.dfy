/**
 A Python dict filled by assigning key/value pairs in order, as the session
 parser, the attribute parser and the config reader all do: a later pair
 overwrites an earlier one with the same key, and a `None` step assigns
 nothing.
 */
module Assoc {
  import opened Wrappers

  /** No assignment after step `j` uses the key assigned at step `j`. */
  predicate LastFor(steps: seq<Option<(string, string)>>, j: int)
    requires 0 <= j < |steps| && steps[j].Some?
  {
    forall j2 :: j < j2 < |steps| && steps[j2].Some? ==> steps[j2].value.0 != steps[j].value.0
  }

  /** `m` holds exactly the keys assigned by `steps`, each with its last assigned value. */
  predicate Holds(steps: seq<Option<(string, string)>>, m: map<string, string>) {
    && (forall j :: 0 <= j < |steps| && steps[j].Some? ==> steps[j].value.0 in m)
    && (forall key :: key in m ==> exists j :: 0 <= j < |steps| && steps[j].Some? && steps[j].value.0 == key)
    && (forall j :: 0 <= j < |steps| && steps[j].Some? && LastFor(steps, j) ==> m[steps[j].value.0] == steps[j].value.1)
  }

  /** The dict after performing `steps` in order on an empty one. */
  function Build(steps: seq<Option<(string, string)>>): map<string, string> {
    if |steps| == 0 then map[]
    else match steps[|steps| - 1]
      case None => Build(steps[..|steps| - 1])
      case Some(kv) => Build(steps[..|steps| - 1])[kv.0 := kv.1]
  }

  /**
   The dict holds exactly the assigned keys, and each with the value of its
   last assignment.
   */
  lemma {:induction false} BuildHolds(steps: seq<Option<(string, string)>>)
    ensures Holds(steps, Build(steps))
  {
    if |steps| > 0 {
      var init := steps[..|steps| - 1];
      BuildHolds(init);
      BuildStep(steps, Build(init), Build(steps));
    }
  }

  lemma BuildStep(steps: seq<Option<(string, string)>>, prev: map<string, string>, m: map<string, string>)
    requires |steps| > 0
    requires Holds(steps[..|steps| - 1], prev)
    requires m == match steps[|steps| - 1]
      case None => prev
      case Some(kv) => prev[kv.0 := kv.1]
    ensures Holds(steps, m)
  {
    var n := |steps| - 1;
    var init := steps[..n];
    assert forall j :: 0 <= j < n ==> init[j] == steps[j];
    forall key | key in m
      ensures exists j :: 0 <= j < |steps| && steps[j].Some? && steps[j].value.0 == key
    {
      if steps[n].Some? && key == steps[n].value.0 {
      } else {
        assert key in prev;
        var j :| 0 <= j < n && init[j].Some? && init[j].value.0 == key;
        assert steps[j] == init[j];
      }
    }
    forall j | 0 <= j < |steps| && steps[j].Some? && LastFor(steps, j)
      ensures m[steps[j].value.0] == steps[j].value.1
    {
      if j < n {
        assert init[j] == steps[j];
        assert LastFor(init, j);
      }
    }
  }
}
