/** Leaving out what depends on something left out: the least set closed under that rule. */
module Dependents {
  import opened Basics
  import opened Tasks

  /** A Dynamic Task with a prerequisite among `gone` cannot be planned; a Static Task can. */
  ghost predicate Doomed(t: TaskSpec, gone: set<Id>)
  {
    !t.Static() && exists d :: d in t.dependsOn && d in gone
  }

  ghost predicate Closed(tasks: seq<TaskSpec>, gone: set<Id>)
  {
    forall t :: t in tasks && Doomed(t, gone) ==> t.id in gone
  }

  /** `gone` is the least closed set that contains `initial`. */
  ghost predicate LeastClosed(tasks: seq<TaskSpec>, initial: set<Id>, gone: set<Id>)
  {
    && initial <= gone && Closed(tasks, gone)
    && forall s: set<Id> :: initial <= s && Closed(tasks, s) ==> gone <= s
  }

  /** Everything in `gone` must be in any closed set around `initial`. */
  ghost predicate Forced(tasks: seq<TaskSpec>, initial: set<Id>, gone: set<Id>)
  {
    initial <= gone && forall s: set<Id> :: initial <= s && Closed(tasks, s) ==> gone <= s
  }

  lemma ForcedMore(tasks: seq<TaskSpec>, initial: set<Id>, gone: set<Id>, t: TaskSpec)
    requires Forced(tasks, initial, gone) && t in tasks && Doomed(t, gone)
    ensures Forced(tasks, initial, gone + {t.id})
  {
    forall s: set<Id> | initial <= s && Closed(tasks, s) ensures gone + {t.id} <= s {
      assert gone <= s;
      assert Doomed(t, s);
    }
  }

  /** What is left so far, and why the rest is not. */
  ghost predicate Surviving(tasks: seq<TaskSpec>, gone: set<Id>, out: set<Id>, current: seq<TaskSpec>)
  {
    && current == Filter((t: TaskSpec) => t.id !in out, tasks)
    && out <= gone
    && forall t :: t in tasks && t.id in out ==> Doomed(t, gone)
  }

  /** In the middle of a pass over `current`, with the first `i` Tasks decided. */
  ghost predicate MidPass(tasks: seq<TaskSpec>, initial: set<Id>, gone: set<Id>, out: set<Id>, current: seq<TaskSpec>,
                          i: nat, kept: seq<TaskSpec>, gone': set<Id>, out': set<Id>)
    requires i <= |current|
  {
    && Forced(tasks, initial, gone') && gone <= gone' && out <= out' <= gone'
    && kept == Filter((t: TaskSpec) => t.id !in out', current[..i])
    && (forall x :: x in out' && x !in out ==> exists k :: 0 <= k < i && current[k].id == x)
    && (forall t :: t in tasks && t.id in out' ==> Doomed(t, gone'))
    && |kept| <= i
    && (|kept| == i ==> gone' == gone && out' == out && forall k :: 0 <= k < i ==> !Doomed(current[k], gone))
  }

  /** One pass: what it leaves out counts at once for the Tasks still to come. */
  method RetainPass(ghost tasks: seq<TaskSpec>, ghost initial: set<Id>, current: seq<TaskSpec>, gone: set<Id>,
                    ghost out: set<Id>)
    returns (kept: seq<TaskSpec>, gone': set<Id>, ghost out': set<Id>)
    requires UniqueIds(tasks) && Forced(tasks, initial, gone) && Surviving(tasks, gone, out, current)
    ensures Forced(tasks, initial, gone') && Surviving(tasks, gone', out', kept)
    ensures gone <= gone'
    ensures |kept| <= |current|
    ensures |kept| == |current| ==> gone' == gone && forall t :: t in kept ==> !Doomed(t, gone)
  {
    kept, gone', out' := [], gone, out;
    var i := 0;
    PassStarts(tasks, initial, gone, out, current);
    while i < |current|
      invariant 0 <= i <= |current|
      invariant MidPass(tasks, initial, gone, out, current, i, kept, gone', out')
    {
      var t := current[i];
      PassGoesOn(tasks, initial, gone, out, current, i, kept, gone', out');
      if t.anchor.None? && exists d | d in t.dependsOn :: d in gone' {
        gone', out' := gone' + {t.id}, out' + {t.id};
      } else {
        kept := kept + [t];
      }
      i := i + 1;
    }
    PassDone(tasks, initial, gone, out, current, kept, gone', out');
  }

  lemma PassStarts(tasks: seq<TaskSpec>, initial: set<Id>, gone: set<Id>, out: set<Id>, current: seq<TaskSpec>)
    requires Forced(tasks, initial, gone) && Surviving(tasks, gone, out, current)
    ensures MidPass(tasks, initial, gone, out, current, 0, [], gone, out)
  {
    assert current[..0] == [];
  }

  lemma PassGoesOn(tasks: seq<TaskSpec>, initial: set<Id>, gone: set<Id>, out: set<Id>, current: seq<TaskSpec>,
                   i: nat, kept: seq<TaskSpec>, gone': set<Id>, out': set<Id>)
    requires UniqueIds(tasks) && Surviving(tasks, gone, out, current)
    requires i < |current| && MidPass(tasks, initial, gone, out, current, i, kept, gone', out')
    ensures if Doomed(current[i], gone')
            then MidPass(tasks, initial, gone, out, current, i + 1, kept,
                         gone' + {current[i].id}, out' + {current[i].id})
            else MidPass(tasks, initial, gone, out, current, i + 1, kept + [current[i]], gone', out')
  {
    LeftOnce(tasks, out, out', current, i);
    if Doomed(current[i], gone') {
      PassLeavesOut(tasks, initial, gone, out, current, i, kept, gone', out');
    } else {
      PassKeeps(tasks, initial, gone, out, current, i, kept, gone', out');
    }
  }

  lemma PassLeavesOut(tasks: seq<TaskSpec>, initial: set<Id>, gone: set<Id>, out: set<Id>, current: seq<TaskSpec>,
                      i: nat, kept: seq<TaskSpec>, gone': set<Id>, out': set<Id>)
    requires UniqueIds(tasks) && i < |current| && MidPass(tasks, initial, gone, out, current, i, kept, gone', out')
    requires current[i] in tasks && current[i].id !in out' && Doomed(current[i], gone')
    requires forall k :: 0 <= k < i ==> current[k].id != current[i].id
    ensures MidPass(tasks, initial, gone, out, current, i + 1, kept, gone' + {current[i].id}, out' + {current[i].id})
  {
    var t := current[i];
    assert current[..i + 1] == current[..i] + [t];
    ForcedMore(tasks, initial, gone', t);
    DoomedStays(tasks, gone', out', t);
    LeaveOut(current[..i], out', t);
    forall x | x in out' + {t.id} && x !in out ensures exists k :: 0 <= k < i + 1 && current[k].id == x {
      if x == t.id {
        assert current[i].id == x;
      } else {
        var k :| 0 <= k < i && current[k].id == x;
      }
    }
  }

  lemma PassKeeps(tasks: seq<TaskSpec>, initial: set<Id>, gone: set<Id>, out: set<Id>, current: seq<TaskSpec>,
                  i: nat, kept: seq<TaskSpec>, gone': set<Id>, out': set<Id>)
    requires i < |current| && MidPass(tasks, initial, gone, out, current, i, kept, gone', out')
    requires current[i].id !in out' && !Doomed(current[i], gone')
    ensures MidPass(tasks, initial, gone, out, current, i + 1, kept + [current[i]], gone', out')
  {
    assert current[..i + 1] == current[..i] + [current[i]];
    FilterSnoc((x: TaskSpec) => x.id !in out', current[..i], current[i]);
    forall x | x in out' && x !in out ensures exists k :: 0 <= k < i + 1 && current[k].id == x {
      var k :| 0 <= k < i && current[k].id == x;
    }
  }

  lemma PassDone(tasks: seq<TaskSpec>, initial: set<Id>, gone: set<Id>, out: set<Id>, current: seq<TaskSpec>,
                 kept: seq<TaskSpec>, gone': set<Id>, out': set<Id>)
    requires Surviving(tasks, gone, out, current)
    requires MidPass(tasks, initial, gone, out, current, |current|, kept, gone', out')
    ensures Forced(tasks, initial, gone') && Surviving(tasks, gone', out', kept)
    ensures gone <= gone' && |kept| <= |current|
    ensures |kept| == |current| ==> gone' == gone && forall t :: t in kept ==> !Doomed(t, gone)
  {
    assert current[..|current|] == current;
    FilterTwice(tasks, out, out');
    if |kept| == |current| {
      forall t | t in kept ensures !Doomed(t, gone) {
        assert t in current;
      }
    }
  }

  lemma LeftOnce(tasks: seq<TaskSpec>, out: set<Id>, out': set<Id>, current: seq<TaskSpec>, i: nat)
    requires UniqueIds(tasks) && current == Filter((t: TaskSpec) => t.id !in out, tasks) && i < |current|
    requires forall x :: x in out' && x !in out ==> exists k :: 0 <= k < i && current[k].id == x
    ensures current[i] in tasks && current[i].id !in out'
    ensures forall k :: 0 <= k < i ==> current[k].id != current[i].id
  {
    FilterMultiset((t: TaskSpec) => t.id !in out, tasks);
    UniqueIdsSub(current, tasks);
    assert current[i] in current;
  }

  lemma DoomedStays(tasks: seq<TaskSpec>, gone: set<Id>, out: set<Id>, t: TaskSpec)
    requires UniqueIds(tasks) && t in tasks && Doomed(t, gone)
    requires forall u :: u in tasks && u.id in out ==> Doomed(u, gone)
    ensures forall u :: u in tasks && u.id in out + {t.id} ==> Doomed(u, gone + {t.id})
  {
    forall u | u in tasks && u.id in out + {t.id} ensures Doomed(u, gone + {t.id}) {
      if u.id == t.id { UniqueIdsSame(tasks, u, t); }
      assert Doomed(u, gone);
    }
  }

  lemma LeaveOut(front: seq<TaskSpec>, out: set<Id>, t: TaskSpec)
    requires forall k :: 0 <= k < |front| ==> front[k].id != t.id
    ensures Filter((x: TaskSpec) => x.id !in out + {t.id}, front + [t]) == Filter((x: TaskSpec) => x.id !in out, front)
  {
    FilterSnoc((x: TaskSpec) => x.id !in out + {t.id}, front, t);
    FilterAgree((x: TaskSpec) => x.id !in out + {t.id}, (x: TaskSpec) => x.id !in out, front);
  }

  lemma {:induction false} FilterTwice(tasks: seq<TaskSpec>, out: set<Id>, out': set<Id>)
    requires out <= out'
    ensures Filter((t: TaskSpec) => t.id !in out', Filter((t: TaskSpec) => t.id !in out, tasks))
         == Filter((t: TaskSpec) => t.id !in out', tasks)
  {
    if tasks != [] {
      FilterTwice(tasks[1..], out, out');
    }
  }

  /** Repeat until a pass leaves nothing more out. */
  method ExcludeDependents(tasks: seq<TaskSpec>, initial: set<Id>) returns (kept: seq<TaskSpec>, removed: set<Id>)
    requires UniqueIds(tasks)
    ensures LeastClosed(tasks, initial, removed)
    ensures kept == Filter((t: TaskSpec) => !Doomed(t, removed), tasks)
  {
    kept, removed := tasks, initial;
    ghost var out: set<Id> := {};
    KeepAll(tasks, out);
    while true
      invariant Forced(tasks, initial, removed) && Surviving(tasks, removed, out, kept)
      decreases |kept|
    {
      ghost var out';
      var next, grown;
      next, grown, out' := RetainPass(tasks, initial, kept, removed, out);
      var settled := |next| == |kept|;
      kept, removed, out := next, grown, out';
      if settled {
        SettledIsClosed(tasks, initial, removed, out, kept);
        return;
      }
    }
  }

  lemma {:induction false} KeepAll(tasks: seq<TaskSpec>, out: set<Id>)
    requires out == {}
    ensures Filter((t: TaskSpec) => t.id !in out, tasks) == tasks
  {
    if tasks != [] { KeepAll(tasks[1..], out); }
  }

  lemma SettledIsClosed(tasks: seq<TaskSpec>, initial: set<Id>, gone: set<Id>, out: set<Id>, kept: seq<TaskSpec>)
    requires Forced(tasks, initial, gone) && Surviving(tasks, gone, out, kept)
    requires forall t :: t in kept ==> !Doomed(t, gone)
    ensures LeastClosed(tasks, initial, gone)
    ensures kept == Filter((t: TaskSpec) => !Doomed(t, gone), tasks)
  {
    forall t | t in tasks && Doomed(t, gone) ensures t.id in gone {
      assert t !in kept;
    }
    forall t | t in tasks ensures (t.id !in out) == !Doomed(t, gone) {
      if t.id !in out { assert t in kept; }
    }
    FilterAgree((t: TaskSpec) => t.id !in out, (t: TaskSpec) => !Doomed(t, gone), tasks);
  }

  /** The outcome does not depend on how the Tasks are listed. */
  lemma OrderDoesNotMatter(tasks: seq<TaskSpec>, others: seq<TaskSpec>, initial: set<Id>, a: set<Id>, b: set<Id>)
    requires forall t :: t in tasks <==> t in others
    requires LeastClosed(tasks, initial, a) && LeastClosed(others, initial, b)
    ensures a == b
  {
    assert Closed(tasks, b) && Closed(others, a);
  }

  /** A Static Task never passes an exclusion on: everything left out was Dynamic or left out before. */
  lemma OnlyDynamicFalls(tasks: seq<TaskSpec>, initial: set<Id>, gone: set<Id>, t: TaskSpec)
    requires UniqueIds(tasks) && LeastClosed(tasks, initial, gone)
    requires t in tasks && t.id in gone && t.id !in initial
    ensures !t.Static() && Doomed(t, gone)
  {
    if t.Static() || !Doomed(t, gone) {
      var less := gone - {t.id};
      forall u | u in tasks && Doomed(u, less) ensures u.id in less {
        assert Doomed(u, gone);
        if u.id == t.id { UniqueIdsSame(tasks, u, t); }
      }
      assert Closed(tasks, less) && initial <= less;
    }
  }

  /** Finally drop the edges that name nothing planned. */
  method PruneEdges(tasks: seq<TaskSpec>) returns (out: seq<TaskSpec>)
    ensures |out| == |tasks|
    ensures forall i :: 0 <= i < |out| ==> Pruned(Ids(tasks), tasks[i], out[i])
  {
    var planned := Ids(tasks);
    out := [];
    var i := 0;
    while i < |tasks|
      invariant 0 <= i <= |tasks| && |out| == i
      invariant forall k :: 0 <= k < i ==> Pruned(planned, tasks[k], out[k])
    {
      out := out + [tasks[i].(dependsOn := Filter((d: Id) => d in planned, tasks[i].dependsOn))];
      i := i + 1;
    }
  }

  ghost predicate Pruned(planned: set<Id>, t: TaskSpec, p: TaskSpec)
  {
    p == t.(dependsOn := Filter((d: Id) => d in planned, t.dependsOn))
  }
}
