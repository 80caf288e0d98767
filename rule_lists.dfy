/** Ordered rule lists.

    Both the input validator and the risk indicators of the attrition
    dashboard evaluate a fixed list of rules in a fixed order, and report the
    message of every rule that fires, without stopping at the first one.
    This module gives that shape one definition, `Select`, and proves the
    facts both callers rely on: the result lists the messages of exactly the
    firing rules, in rule order, each once, and is as long as the number of
    rules that fire.
 */
module RuleLists {

  /** The messages `msgs[i]` whose rule fires (`fires[i]`), in rule order. */
  function Select<T>(fires: seq<bool>, msgs: seq<T>): seq<T>
    requires |fires| == |msgs|
    decreases |fires|
  {
    if |fires| == 0 then []
    else (if fires[0] then [msgs[0]] else []) + Select(fires[1..], msgs[1..])
  }

  /** The number of rules that fire. */
  function CountTrue(fires: seq<bool>): nat
    decreases |fires|
  {
    if |fires| == 0 then 0 else (if fires[0] then 1 else 0) + CountTrue(fires[1..])
  }

  /** `s` can be obtained from `t` by deleting elements, so its elements
      occur in `t` in the same relative order. */
  predicate IsSubsequence<T(==)>(s: seq<T>, t: seq<T>)
    decreases |t|
  {
    if |s| == 0 then true
    else if |t| == 0 then false
    else (s[0] == t[0] && IsSubsequence(s[1..], t[1..])) || IsSubsequence(s, t[1..])
  }

  /** No element occurs twice. */
  predicate Distinct<T(==)>(s: seq<T>) {
    forall i, j :: 0 <= i < j < |s| ==> s[i] != s[j]
  }

  /** One message per firing rule: the output is never longer than the rule list. */
  lemma {:induction false} SelectLength<T>(fires: seq<bool>, msgs: seq<T>)
    requires |fires| == |msgs|
    ensures |Select(fires, msgs)| == CountTrue(fires) <= |fires|
    decreases |fires|
  {
    if |fires| > 0 {
      SelectLength(fires[1..], msgs[1..]);
    }
  }

  /** Nothing is reported exactly when no rule fires. */
  lemma {:induction false} SelectEmpty<T>(fires: seq<bool>, msgs: seq<T>)
    requires |fires| == |msgs|
    ensures Select(fires, msgs) == [] <==> forall i :: 0 <= i < |fires| ==> !fires[i]
    decreases |fires|
  {
    if |fires| > 0 {
      SelectEmpty(fires[1..], msgs[1..]);
      if !fires[0] && Select(fires[1..], msgs[1..]) == [] {
        forall i | 0 <= i < |fires| ensures !fires[i] {
          if i > 0 { assert fires[i] == fires[1..][i - 1]; }
        }
      }
      if forall i :: 0 <= i < |fires| ==> !fires[i] {
        forall i | 0 <= i < |fires| - 1 ensures !fires[1..][i] {
          assert fires[1..][i] == fires[i + 1];
        }
      }
    }
  }

  /** Every reported message is the message of a rule that fires. */
  lemma {:induction false} SelectSound<T>(fires: seq<bool>, msgs: seq<T>, m: T)
    requires |fires| == |msgs|
    requires m in Select(fires, msgs)
    ensures exists i :: 0 <= i < |fires| && fires[i] && msgs[i] == m
    decreases |fires|
  {
    if |fires| > 0 {
      if !(fires[0] && m == msgs[0]) {
        assert m in Select(fires[1..], msgs[1..]);
        SelectSound(fires[1..], msgs[1..], m);
        var i :| 0 <= i < |fires| - 1 && fires[1..][i] && msgs[1..][i] == m;
        assert fires[i + 1] && msgs[i + 1] == m;
      }
    }
  }

  /** Only given messages are reported. */
  lemma {:induction false} SelectWithin<T>(fires: seq<bool>, msgs: seq<T>)
    requires |fires| == |msgs|
    ensures forall m :: m in Select(fires, msgs) ==> m in msgs
    decreases |fires|
  {
    if |fires| > 0 {
      SelectWithin(fires[1..], msgs[1..]);
      assert forall m :: m in msgs[1..] ==> m in msgs;
    }
  }

  /** Every firing rule is reported. */
  lemma {:induction false} SelectComplete<T>(fires: seq<bool>, msgs: seq<T>, i: nat)
    requires |fires| == |msgs|
    requires i < |fires| && fires[i]
    ensures msgs[i] in Select(fires, msgs)
    decreases |fires|
  {
    if i > 0 {
      SelectComplete(fires[1..], msgs[1..], i - 1);
    }
  }

  /** When the messages are pairwise different, a message is reported if and
      only if its rule fires. */
  lemma SelectMember<T>(fires: seq<bool>, msgs: seq<T>, i: nat)
    requires |fires| == |msgs| && Distinct(msgs)
    requires i < |fires|
    ensures msgs[i] in Select(fires, msgs) <==> fires[i]
  {
    if fires[i] {
      SelectComplete(fires, msgs, i);
    }
    if msgs[i] in Select(fires, msgs) {
      SelectSound(fires, msgs, msgs[i]);
      var j :| 0 <= j < |fires| && fires[j] && msgs[j] == msgs[i];
      assert j == i;
    }
  }

  /** The report keeps the rule order: it is a subsequence of all messages. */
  lemma {:induction false} SelectOrdered<T>(fires: seq<bool>, msgs: seq<T>)
    requires |fires| == |msgs|
    ensures IsSubsequence(Select(fires, msgs), msgs)
    decreases |fires|
  {
    if |fires| > 0 {
      var rest := Select(fires[1..], msgs[1..]);
      SelectOrdered(fires[1..], msgs[1..]);
      if fires[0] {
        assert Select(fires, msgs) == [msgs[0]] + rest;
        assert ([msgs[0]] + rest)[1..] == rest;
      } else {
        assert Select(fires, msgs) == rest;
        if |rest| > 0 {
          assert IsSubsequence(rest, msgs[1..]);
        }
      }
    }
  }

  /** With pairwise different messages, no message is reported twice. */
  lemma {:induction false} SelectDistinct<T>(fires: seq<bool>, msgs: seq<T>)
    requires |fires| == |msgs| && Distinct(msgs)
    ensures Distinct(Select(fires, msgs))
    decreases |fires|
  {
    if |fires| > 0 {
      var rest := Select(fires[1..], msgs[1..]);
      assert Distinct(msgs[1..]) by {
        forall i, j | 0 <= i < j < |msgs| - 1 ensures msgs[1..][i] != msgs[1..][j] {
          assert msgs[1..][i] == msgs[i + 1] && msgs[1..][j] == msgs[j + 1];
        }
      }
      SelectDistinct(fires[1..], msgs[1..]);
      if fires[0] {
        SelectWithin(fires[1..], msgs[1..]);
        assert msgs[0] !in msgs[1..] by {
          forall k | 0 <= k < |msgs| - 1 ensures msgs[1..][k] != msgs[0] {
            assert msgs[1..][k] == msgs[k + 1];
          }
        }
        var out := [msgs[0]] + rest;
        forall i, j | 0 <= i < j < |out| ensures out[i] != out[j] {
          assert out[j] == rest[j - 1];
          if i > 0 { assert out[i] == rest[i - 1]; }
        }
      }
    }
  }

  /** `Select` over exactly three rules, written out. */
  lemma UnfoldSelect3<T>(fires: seq<bool>, msgs: seq<T>)
    requires |fires| == |msgs| == 3
    ensures Select(fires, msgs) ==
      (if fires[0] then [msgs[0]] else []) +
      (if fires[1] then [msgs[1]] else []) +
      (if fires[2] then [msgs[2]] else [])
  {
    assert fires[1..][1..][1..] == [];
    assert Select(fires[1..][1..], msgs[1..][1..]) ==
      (if fires[2] then [msgs[2]] else []) + Select(fires[1..][1..][1..], msgs[1..][1..][1..]);
  }
}
