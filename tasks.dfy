/**
 * The task records of the task manager and the pure computations on a list
 * of them: the next id to hand out, the lookup of a task by id, the filter
 * that removes tasks by id, and the facts about ids that the store keeps.
 */
module Tasks {
  import opened Wrappers

  /** One to-do item as it is kept in the tasks file. */
  datatype Task = Task(id: int, description: string, completed: bool)

  /**
   * Strict equality between a task's id and an id typed by the user.
   * The user's input goes through parseInt, so it is either a number or
   * NaN; None stands for NaN, which equals no id.
   */
  predicate Matches(t: Task, id: Option<int>)
  {
    id.Some? && t.id == id.value
  }

  /** Every task's id is smaller than the id of the task after it. */
  predicate IdsIncreasing(tasks: seq<Task>)
  {
    forall i :: 0 <= i < |tasks| - 1 ==> tasks[i].id < tasks[i + 1].id
  }

  /** No two tasks share an id. */
  predicate IdsDistinct(tasks: seq<Task>)
  {
    forall i, j :: 0 <= i < |tasks| && 0 <= j < |tasks| && i != j ==> tasks[i].id != tasks[j].id
  }

  // ---------------------------------------------------------------------------
  // Ids

  /**
   * The id a new task receives: one more than the LAST task's id, or 1.
   * While ids increase it is larger than every id in the list.
   */
  function NextId(tasks: seq<Task>): (r: int)
    ensures tasks == [] ==> r == 1
    ensures IdsIncreasing(tasks) ==> forall i :: 0 <= i < |tasks| ==> tasks[i].id < r
  {
    LastIsLargest(tasks);
    if |tasks| == 0 then 1 else tasks[|tasks| - 1].id + 1
  }

  /** While ids increase, the last task carries the largest id. */
  lemma LastIsLargest(tasks: seq<Task>)
    ensures IdsIncreasing(tasks) ==>
              forall i :: 0 <= i < |tasks| ==> tasks[i].id <= tasks[|tasks| - 1].id
  {
    if IdsIncreasing(tasks) {
      forall i | 0 <= i < |tasks| - 1 ensures tasks[i].id <= tasks[|tasks| - 1].id {
        IncreasingOrdered(tasks, i, |tasks| - 1);
      }
    }
  }

  /** The largest id in a non-empty list. */
  function MaxId(tasks: seq<Task>): (m: int)
    requires tasks != []
    ensures exists i :: 0 <= i < |tasks| && tasks[i].id == m
    ensures forall i :: 0 <= i < |tasks| ==> tasks[i].id <= m
  {
    if |tasks| == 1 then tasks[0].id
    else
      var rest := MaxId(tasks[1..]);
      assert forall i :: 1 <= i < |tasks| ==> tasks[i] == tasks[1..][i - 1];
      if tasks[0].id < rest then rest else tasks[0].id
  }

  /** Adjacent ordering of ids extends to any two positions. */
  lemma {:induction false} IncreasingOrdered(tasks: seq<Task>, i: int, j: int)
    requires IdsIncreasing(tasks)
    requires 0 <= i < j < |tasks|
    ensures tasks[i].id < tasks[j].id
    decreases j - i
  {
    if i + 1 < j {
      IncreasingOrdered(tasks, i + 1, j);
    }
  }

  /** Strictly increasing ids are pairwise distinct. */
  lemma IncreasingDistinct(tasks: seq<Task>)
    requires IdsIncreasing(tasks)
    ensures IdsDistinct(tasks)
  {
    forall i, j | 0 <= i < |tasks| && 0 <= j < |tasks| && i != j
      ensures tasks[i].id != tasks[j].id
    {
      if i < j { IncreasingOrdered(tasks, i, j); } else { IncreasingOrdered(tasks, j, i); }
    }
  }

  /**
   * With increasing ids, "last id + 1" is the same as "largest id + 1":
   * the two id policies agree on every list the store itself produces.
   */
  lemma NextIdIsMaxPlusOne(tasks: seq<Task>)
    requires tasks != []
    requires IdsIncreasing(tasks)
    ensures NextId(tasks) == MaxId(tasks) + 1
  { }

  // ---------------------------------------------------------------------------
  // Adding

  /**
   * The list after appending a new, pending task with the next id. The old
   * tasks stay in front, unchanged, and ids that increased still increase.
   */
  function Added(tasks: seq<Task>, description: string): (r: seq<Task>)
    ensures |r| == |tasks| + 1 && r[..|tasks|] == tasks
    ensures r[|tasks|].id == NextId(tasks)
    ensures r[|tasks|].description == description && !r[|tasks|].completed
    ensures IdsIncreasing(tasks) ==> IdsIncreasing(r)
  {
    tasks + [Task(NextId(tasks), description, false)]
  }

  /**
   * The list after adding each description in turn, as repeated addTask
   * calls do: the old tasks stay in front, one pending task follows per
   * description, and ids that increased still increase.
   */
  function AddAll(tasks: seq<Task>, descriptions: seq<string>): (r: seq<Task>)
    ensures |r| == |tasks| + |descriptions| && r[..|tasks|] == tasks
    ensures forall k :: |tasks| <= k < |r| ==> !r[k].completed
    ensures forall k :: 0 <= k < |descriptions| ==>
              r[|tasks| + k] == Task(NextId(tasks) + k, descriptions[k], false)
    ensures IdsIncreasing(tasks) ==> IdsIncreasing(r)
    decreases |descriptions|
  {
    if descriptions == [] then tasks
    else
      var next := Added(tasks, descriptions[0]);
      var r := AddAll(next, descriptions[1..]);
      assert r[..|tasks|] == r[..|next|][..|tasks|];
      assert forall k :: |tasks| <= k < |next| ==> k == |tasks| && r[k] == next[k];
      r
  }

  /**
   * Starting from no tasks, adding descriptions d1..dn gives n pending tasks
   * with ids 1..n in that order.
   */
  lemma AddAllFromEmpty(descriptions: seq<string>)
    ensures |AddAll([], descriptions)| == |descriptions|
    ensures forall k :: 0 <= k < |descriptions| ==>
              AddAll([], descriptions)[k] == Task(k + 1, descriptions[k], false)
    ensures IdsIncreasing(AddAll([], descriptions))
  { }

  // ---------------------------------------------------------------------------
  // Finding and marking

  /** The position of the first task whose id matches, as Array.prototype.find picks it. */
  function FindIndex(tasks: seq<Task>, id: Option<int>): (r: Option<nat>)
    ensures r.Some? ==> r.value < |tasks| && Matches(tasks[r.value], id)
    ensures r.Some? ==> forall j :: 0 <= j < r.value ==> !Matches(tasks[j], id)
    ensures r.None? <==> forall j :: 0 <= j < |tasks| ==> !Matches(tasks[j], id)
  {
    if |tasks| == 0 then None
    else if Matches(tasks[0], id) then Some(0)
    else
      match FindIndex(tasks[1..], id)
      case None =>
        assert forall j :: 1 <= j < |tasks| ==> tasks[j] == tasks[1..][j - 1];
        None
      case Some(k) =>
        assert tasks[k + 1] == tasks[1..][k];
        assert forall j :: 1 <= j <= k ==> tasks[j] == tasks[1..][j - 1];
        Some(k + 1)
  }

  /** With increasing ids the first match is the only match. */
  lemma FirstMatchIsOnly(tasks: seq<Task>, id: Option<int>)
    requires IdsIncreasing(tasks)
    requires FindIndex(tasks, id).Some?
    ensures forall j :: 0 <= j < |tasks| && Matches(tasks[j], id) ==> j == FindIndex(tasks, id).value
  {
    IncreasingDistinct(tasks);
  }

  /**
   * The list with the task at position i marked as completed: that task
   * keeps its id and description, every other task and the order stay as
   * they were, and so ids that increased still increase.
   */
  function MarkedAt(tasks: seq<Task>, i: nat): (r: seq<Task>)
    requires i < |tasks|
    ensures |r| == |tasks|
    ensures r[i].completed && r[i].id == tasks[i].id && r[i].description == tasks[i].description
    ensures forall j :: 0 <= j < |tasks| && j != i ==> r[j] == tasks[j]
    ensures IdsIncreasing(tasks) ==> IdsIncreasing(r)
  {
    tasks[i := tasks[i].(completed := true)]
  }

  // ---------------------------------------------------------------------------
  // Removing

  /** r is obtained from s by deleting elements, keeping the order of the rest. */
  predicate IsSubsequence(r: seq<Task>, s: seq<Task>)
    decreases |s|
  {
    if r == [] then true
    else if s == [] then false
    else if r[0] == s[0] then IsSubsequence(r[1..], s[1..])
    else IsSubsequence(r, s[1..])
  }

  /**
   * The list without the tasks whose id matches, in their original order,
   * as Array.prototype.filter with "id !== given id" builds it.
   */
  function Without(tasks: seq<Task>, id: Option<int>): (r: seq<Task>)
    ensures forall t :: t in r ==> t in tasks && !Matches(t, id)
    ensures IsSubsequence(r, tasks)
    ensures (forall j :: 0 <= j < |tasks| ==> !Matches(tasks[j], id)) ==> r == tasks
  {
    if tasks == [] then []
    else
      var rest := Without(tasks[1..], id);
      assert forall j :: 1 <= j < |tasks| ==> tasks[j] == tasks[1..][j - 1];
      if Matches(tasks[0], id) then
        assert rest != [] ==> rest[0] in rest;
        rest
      else
        [tasks[0]] + rest
  }

  /** Without keeps every copy of each non-matching task and no copy of a matching one. */
  lemma {:induction false} WithoutCounts(tasks: seq<Task>, id: Option<int>)
    ensures forall t :: multiset(Without(tasks, id))[t] == if Matches(t, id) then 0 else multiset(tasks)[t]
  {
    if tasks != [] {
      WithoutCounts(tasks[1..], id);
      assert tasks == [tasks[0]] + tasks[1..];
    }
  }

  /** Deleting elements cannot raise the number of copies of any element. */
  lemma {:induction false} SubsequenceCount(r: seq<Task>, s: seq<Task>, t: Task)
    requires IsSubsequence(r, s)
    ensures multiset(r)[t] <= multiset(s)[t]
    decreases |s|
  {
    if r != [] {
      assert s == [s[0]] + s[1..];
      if r[0] == s[0] {
        assert r == [r[0]] + r[1..];
        SubsequenceCount(r[1..], s[1..], t);
      } else {
        SubsequenceCount(r, s[1..], t);
      }
    }
  }

  /**
   * Without is the ONLY order-preserving sublist that keeps every
   * non-matching task and no matching one.
   */
  lemma {:induction false} WithoutUnique(tasks: seq<Task>, id: Option<int>, r: seq<Task>)
    requires IsSubsequence(r, tasks)
    requires forall t :: multiset(r)[t] == if Matches(t, id) then 0 else multiset(tasks)[t]
    ensures r == Without(tasks, id)
    decreases |tasks|
  {
    if tasks != [] {
      var h, rest := tasks[0], tasks[1..];
      assert tasks == [h] + rest;
      if Matches(h, id) {
        if r != [] {
          assert r[0] in multiset(r);
        }
        assert IsSubsequence(r, rest);
        forall t ensures multiset(r)[t] == if Matches(t, id) then 0 else multiset(rest)[t] {
          if !Matches(t, id) { assert t != h; }
        }
        WithoutUnique(rest, id, r);
      } else {
        assert multiset(r)[h] >= 1;
        assert r != [];
        if r[0] == h {
          assert r == [h] + r[1..];
          assert IsSubsequence(r[1..], rest);
          forall t ensures multiset(r[1..])[t] == if Matches(t, id) then 0 else multiset(rest)[t] {
            if t == h {
              assert multiset(r[1..])[t] == multiset(r)[t] - 1;
            }
          }
          WithoutUnique(rest, id, r[1..]);
        } else {
          SubsequenceCount(r, rest, h);
          assert false;
        }
      }
    }
  }

  /** Removing twice leaves what removing once left. */
  lemma WithoutIdempotent(tasks: seq<Task>, id: Option<int>)
    ensures Without(Without(tasks, id), id) == Without(tasks, id)
  { }

  /** Removing distributes over appending one task. */
  lemma {:induction false} WithoutAppend(tasks: seq<Task>, t: Task, id: Option<int>)
    ensures Without(tasks + [t], id) == Without(tasks, id) + Without([t], id)
  {
    if tasks != [] {
      assert (tasks + [t])[1..] == tasks[1..] + [t];
      WithoutAppend(tasks[1..], t, id);
    } else {
      assert tasks + [t] == [t];
    }
  }

  /** With increasing ids, every task after the first has a larger id than the first. */
  lemma HeadBelowRest(tasks: seq<Task>)
    requires tasks != []
    requires IdsIncreasing(tasks)
    ensures IdsIncreasing(tasks[1..])
    ensures forall t :: t in tasks[1..] ==> tasks[0].id < t.id
  {
    var rest := tasks[1..];
    forall i | 0 <= i < |rest| - 1 ensures rest[i].id < rest[i + 1].id {
      assert rest[i] == tasks[i + 1] && rest[i + 1] == tasks[i + 2];
    }
    forall t | t in rest ensures tasks[0].id < t.id {
      var k :| 0 <= k < |rest| && rest[k] == t;
      IncreasingOrdered(tasks, 0, k + 1);
    }
  }

  /** A task with a smaller id than everything in an increasing list can lead it. */
  lemma ConsIncreasing(t: Task, w: seq<Task>)
    requires IdsIncreasing(w)
    requires w != [] ==> t.id < w[0].id
    ensures IdsIncreasing([t] + w)
  { }

  /** Removing tasks keeps ids increasing. */
  lemma {:induction false} WithoutIncreasing(tasks: seq<Task>, id: Option<int>)
    requires IdsIncreasing(tasks)
    ensures IdsIncreasing(Without(tasks, id))
  {
    if tasks != [] {
      var rest := tasks[1..];
      HeadBelowRest(tasks);
      WithoutIncreasing(rest, id);
      if !Matches(tasks[0], id) {
        var w := Without(rest, id);
        if w != [] {
          assert w[0] in w;
        }
        ConsIncreasing(tasks[0], w);
      }
    }
  }

  /**
   * Ids can be handed out again: after adding a task and removing it, the
   * next added task receives the same id. The store reuses ids.
   */
  lemma IdReused(tasks: seq<Task>, first: string, second: string)
    requires IdsIncreasing(tasks)
    ensures var once := Added(tasks, first);
            var again := Added(Without(once, Some(NextId(tasks))), second);
            again[|again| - 1].id == once[|once| - 1].id
  {
    var n := NextId(tasks);
    WithoutAppend(tasks, Task(n, first, false), Some(n));
    assert Without([Task(n, first, false)], Some(n)) == [];
    assert Without(tasks, Some(n)) == tasks;
    assert Without(Added(tasks, first), Some(n)) == tasks;
  }
}
