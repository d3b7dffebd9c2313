/** Choosing and ordering the windows to lay out (the title filter of
    `getWindowSizes`).

    The enumerated windows are first narrowed to those whose title is one of
    the targets; then, for each target in order, the first remaining window
    with exactly that title is appended to the result.  A target without a
    window contributes nothing; a target listed twice yields the same window
    twice.

    `Ordered` states the result target by target; `GetWindowsOrdered` is the
    source's nested loop with its early `break`, proved to compute it. */
module Catalog {
  import opened Geometry

  /** Index of the first window titled `target`, or `|windows|` if none is. */
  function FirstIndex(windows: seq<WindowRecord>, target: string): (k: nat)
    ensures k <= |windows|
    ensures k < |windows| ==> windows[k].title == target
    ensures forall m :: 0 <= m < k ==> windows[m].title != target
  {
    if windows == [] then 0
    else if windows[0].title == target then 0
    else 1 + FirstIndex(windows[1..], target)
  }

  /** The first window titled `target`, as a sequence of zero or one records. */
  function MatchOf(windows: seq<WindowRecord>, target: string): (r: seq<WindowRecord>)
    ensures |r| <= 1
    ensures r != [] ==> FirstIndex(windows, target) < |windows| && r[0] == windows[FirstIndex(windows, target)] && r[0].title == target
  {
    var k := FirstIndex(windows, target);
    if k < |windows| then [windows[k]] else []
  }

  /** A target contributes nothing exactly when no enumerated window carries
      its title. */
  lemma MatchOfEmpty(windows: seq<WindowRecord>, target: string)
    ensures MatchOf(windows, target) == [] <==> forall k :: 0 <= k < |windows| ==> windows[k].title != target
  {
  }

  /** The filtered and reordered windows: the match of each target, in the
      order of `targets`. */
  function Ordered(windows: seq<WindowRecord>, targets: seq<string>): seq<WindowRecord>
  {
    if targets == [] then []
    else Ordered(windows, targets[..|targets| - 1]) + MatchOf(windows, targets[|targets| - 1])
  }

  /** The comprehension that keeps only the windows whose title is a target,
      in enumeration order. */
  function KeepTargeted(windows: seq<WindowRecord>, targets: seq<string>): (r: seq<WindowRecord>)
    ensures |r| <= |windows|
    ensures forall x :: x in r ==> x in windows && x.title in targets
  {
    if windows == [] then []
    else (if windows[0].title in targets then [windows[0]] else []) + KeepTargeted(windows[1..], targets)
  }

  /** The pre-filter drops nothing it should keep: every enumerated window
      whose title is a target survives it. */
  lemma {:induction false} KeepTargetedComplete(windows: seq<WindowRecord>, targets: seq<string>, k: nat)
    requires k < |windows| && windows[k].title in targets
    ensures windows[k] in KeepTargeted(windows, targets)
  {
    if k > 0 {
      KeepTargetedComplete(windows[1..], targets, k - 1);
    }
  }

  /** The match among `[w] + rest` is `w` itself if it carries the title,
      otherwise the match among `rest`. */
  lemma MatchOfCons(w: WindowRecord, rest: seq<WindowRecord>, target: string)
    ensures MatchOf([w] + rest, target) == if w.title == target then [w] else MatchOf(rest, target)
  {
    assert ([w] + rest)[1..] == rest;
  }

  /** The pre-filter does not change which window a target picks: for a
      target in the list, its first match among the kept windows is its first
      match among all of them. */
  lemma {:induction false} KeepTargetedPreservesMatch(windows: seq<WindowRecord>, targets: seq<string>, target: string)
    requires target in targets
    ensures MatchOf(KeepTargeted(windows, targets), target) == MatchOf(windows, target)
  {
    if windows != [] {
      var w, tail := windows[0], windows[1..];
      KeepTargetedPreservesMatch(tail, targets, target);
      var rest := KeepTargeted(tail, targets);
      assert windows == [w] + tail;
      MatchOfCons(w, tail, target);
      if w.title in targets {
        assert KeepTargeted(windows, targets) == [w] + rest;
        MatchOfCons(w, rest, target);
      } else {
        assert KeepTargeted(windows, targets) == rest;
      }
    }
  }

  /** Extending the target list by one appends that target's match. */
  lemma OrderedStep(windows: seq<WindowRecord>, targets: seq<string>, t: nat)
    requires t < |targets|
    ensures Ordered(windows, targets[..t + 1]) == Ordered(windows, targets[..t]) + MatchOf(windows, targets[t])
  {
    assert targets[..t + 1][..t] == targets[..t];
  }

  method GetWindowsOrdered(windows: seq<WindowRecord>, targets: seq<string>) returns (ordered: seq<WindowRecord>)
    ensures ordered == Ordered(windows, targets)
  {
    var kept := KeepTargeted(windows, targets);
    ordered := [];
    for t := 0 to |targets|
      invariant ordered == Ordered(windows, targets[..t])
    {
      var target := targets[t];
      ghost var before := ordered;
      KeepTargetedPreservesMatch(windows, targets, target);
      OrderedStep(windows, targets, t);
      for k := 0 to |kept|
        invariant forall m :: 0 <= m < k ==> kept[m].title != target
        invariant ordered == before
      {
        if kept[k].title == target {
          assert FirstIndex(kept, target) == k;
          ordered := ordered + [kept[k]];
          break;
        }
      }
      assert ordered == before + MatchOf(kept, target);
    }
    assert targets[..|targets|] == targets;
  }

  /** Ordering over a concatenation of target lists is the concatenation of
      the orderings: the result is built target by target. */
  lemma {:induction false} OrderedAppend(windows: seq<WindowRecord>, a: seq<string>, b: seq<string>)
    ensures Ordered(windows, a + b) == Ordered(windows, a) + Ordered(windows, b)
  {
    if b == [] {
      assert a + b == a;
    } else {
      var b' := b[..|b| - 1];
      assert (a + b)[..|a + b| - 1] == a + b';
      assert (a + b)[|a + b| - 1] == b[|b| - 1];
      OrderedAppend(windows, a, b');
    }
  }

  /** At most one record per target; every record is an unchanged element of
      the input whose title is a target, and it is the first enumerated
      window carrying that title. */
  lemma {:induction false} OrderedElements(windows: seq<WindowRecord>, targets: seq<string>)
    ensures |Ordered(windows, targets)| <= |targets|
    ensures forall x :: x in Ordered(windows, targets) ==>
              x in windows && x.title in targets && x == windows[FirstIndex(windows, x.title)]
  {
    if targets != [] {
      var init := targets[..|targets| - 1];
      OrderedElements(windows, init);
      forall x | x in Ordered(windows, targets)
        ensures x in windows && x.title in targets && x == windows[FirstIndex(windows, x.title)]
      {
        if x in Ordered(windows, init) {
          assert x.title in init;
        } else {
          assert x in MatchOf(windows, targets[|targets| - 1]);
        }
      }
    }
  }

  /** When every target has a window, the result has one record per target,
      in target order: the `k`-th is the first window titled `targets[k]`. */
  lemma {:induction false} OrderedAllFound(windows: seq<WindowRecord>, targets: seq<string>, k: nat)
    requires forall t :: t in targets ==> exists w :: w in windows && w.title == t
    requires k < |targets|
    ensures |Ordered(windows, targets)| == |targets|
    ensures FirstIndex(windows, targets[k]) < |windows|
    ensures Ordered(windows, targets)[k].title == targets[k]
    ensures Ordered(windows, targets)[k] == windows[FirstIndex(windows, targets[k])]
  {
    var n := |targets|;
    var init := targets[..n - 1];
    assert targets[n - 1] in targets;
    var m := MatchOf(windows, targets[n - 1]);
    assert |m| == 1;
    if k < n - 1 {
      assert forall t :: t in init ==> t in targets;
      OrderedAllFound(windows, init, k);
    } else if n > 1 {
      assert forall t :: t in init ==> t in targets;
      OrderedAllFound(windows, init, 0);
    }
  }

  lemma OrderedSingle(windows: seq<WindowRecord>, target: string)
    ensures Ordered(windows, [target]) == MatchOf(windows, target)
  {
    assert [target][..0] == [];
  }

  /** A target that no window carries contributes nothing. */
  lemma OrderedSkipsMissing(windows: seq<WindowRecord>, a: seq<string>, target: string, b: seq<string>)
    requires forall k :: 0 <= k < |windows| ==> windows[k].title != target
    ensures Ordered(windows, a + [target] + b) == Ordered(windows, a + b)
  {
    OrderedAppend(windows, a + [target], b);
    OrderedAppend(windows, a, [target]);
    OrderedAppend(windows, a, b);
    OrderedSingle(windows, target);
  }

  /** A target listed twice picks the same window twice. */
  lemma OrderedDuplicate(windows: seq<WindowRecord>, a: seq<string>, target: string)
    requires exists k :: 0 <= k < |windows| && windows[k].title == target
    ensures FirstIndex(windows, target) < |windows|
    ensures var x := windows[FirstIndex(windows, target)];
            x.title == target && Ordered(windows, a + [target, target]) == Ordered(windows, a) + [x, x]
  {
    var k := FirstIndex(windows, target);
    OrderedSingle(windows, target);
    assert MatchOf(windows, target) == [windows[k]];
    assert [target] + [target] == [target, target];
    OrderedAppend(windows, [target], [target]);
    assert Ordered(windows, [target, target]) == [windows[k], windows[k]];
    OrderedAppend(windows, a, [target, target]);
  }

  /** What `getWindowSizes` yields: the windows, or the `UnboundLocalError`
      raised when no target list is given. */
  datatype Lookup = Found(windows: seq<WindowRecord>) | UnboundLocalError

  /** `getWindowSizes` as written: the result variable is bound only inside
      the `targets is not None` branch, so without targets the return fails. */
  function GetWindowSizesAsWritten(windows: seq<WindowRecord>, targets: Option<seq<string>>): (r: Lookup)
    ensures r.UnboundLocalError? <==> targets.None?
    ensures targets.Some? ==> r == Found(Ordered(windows, targets.value))
  {
    match targets
    case None => UnboundLocalError
    case Some(ts) => Found(Ordered(windows, ts))
  }

  /** Called without targets, the function as written fails even though
      real windows were enumerated. */
  lemma AsWrittenFailsWithoutTargets()
    ensures var w := WindowRecord("Editor", 1, Size(800, 600));
            GetWindowSizesAsWritten([w], None) == UnboundLocalError
  {
  }

  /** `getWindowSizes` as its documentation describes it: every real window
      when no targets are given, otherwise the filtered and reordered list. */
  method GetWindowSizes(windows: seq<WindowRecord>, targets: Option<seq<string>>) returns (r: seq<WindowRecord>)
    ensures targets.None? ==> r == windows
    ensures targets.Some? ==> r == Ordered(windows, targets.value)
    ensures targets.Some? ==> GetWindowSizesAsWritten(windows, targets) == Found(r)
  {
    match targets {
      case None =>
        r := windows;
      case Some(ts) =>
        r := GetWindowsOrdered(windows, ts);
    }
  }
}
