/**
 * The grouping of client/src/components/TaskList.jsx: the leaf tasks folded
 * into a dictionary keyed by `parent_id`, or `'root'` when `parent_id` is
 * falsy, each group keeping its tasks in input order.
 */
module TaskList {
  import opened Wrappers
  import opened Decimal
  import opened Records

  const ROOT_KEY := "root"

  /** `task.parent_id || 'root'`, as the dictionary key it becomes (numbers key by their decimal text). */
  function GroupKey(task: Row): string {
    if HasParent(task) then IntToString(task.parentId.value) else ROOT_KEY
  }

  /** `'root'` is the key of exactly the tasks with a falsy parent; a real parent id never collides with it. */
  lemma GroupKeyFaithful(task: Row)
    ensures GroupKey(task) == ROOT_KEY <==> !HasParent(task)
    ensures HasParent(task) ==> ParseInt(GroupKey(task)) == task.parentId.value
  {
    if HasParent(task) {
      ParseIntToString(task.parentId.value);
      assert GroupKey(task)[0] != 'r';
    }
  }

  /** The tasks whose key is `key`, in input order. */
  function Members(tasks: seq<Row>, key: string): (group: seq<Row>)
    ensures |group| <= |tasks|
    decreases |tasks|
  {
    if tasks == [] then []
    else
      var init, last := tasks[..|tasks| - 1], tasks[|tasks| - 1];
      Members(init, key) + (if GroupKey(last) == key then [last] else [])
  }

  /** A group holds exactly the tasks with its key. */
  lemma {:induction false} MembersExact(tasks: seq<Row>, key: string, task: Row)
    ensures task in Members(tasks, key) <==> task in tasks && GroupKey(task) == key
    decreases |tasks|
  {
    if tasks != [] {
      var init, last := tasks[..|tasks| - 1], tasks[|tasks| - 1];
      assert tasks == init + [last];
      MembersExact(init, key, task);
    }
  }

  /** The keys some task maps to. */
  function Keys(tasks: seq<Row>): set<string> {
    set i | 0 <= i < |tasks| :: GroupKey(tasks[i])
  }

  /** The dictionary the `reduce` builds: one group per key in use. */
  function Grouping(tasks: seq<Row>): map<string, seq<Row>> {
    map key | key in Keys(tasks) :: Members(tasks, key)
  }

  lemma KeysSnoc(tasks: seq<Row>, task: Row)
    ensures Keys(tasks + [task]) == Keys(tasks) + {GroupKey(task)}
  {
    var all := tasks + [task];
    forall k | k in Keys(all) ensures k in Keys(tasks) + {GroupKey(task)} {
      var i :| 0 <= i < |all| && GroupKey(all[i]) == k;
      if i < |tasks| { assert all[i] == tasks[i]; }
    }
    forall k | k in Keys(tasks) ensures k in Keys(all) {
      var i :| 0 <= i < |tasks| && GroupKey(tasks[i]) == k;
      assert all[i] == tasks[i];
    }
    assert all[|tasks|] == task;
  }

  lemma MembersUnused(tasks: seq<Row>, key: string)
    requires key !in Keys(tasks)
    ensures Members(tasks, key) == []
  {
    if Members(tasks, key) != [] {
      var t := Members(tasks, key)[0];
      MembersExact(tasks, key, t);
    }
  }

  /** The `reduce` callback: push the task onto its key's group, creating the group on first use. */
  function Push(groups: map<string, seq<Row>>, task: Row): map<string, seq<Row>> {
    var key := GroupKey(task);
    groups[key := (if key in groups then groups[key] else []) + [task]]
  }

  /** `if (!acc[k]) acc[k] = []; acc[k].push(task)` is the callback. */
  lemma CreateThenPush(groups: map<string, seq<Row>>, task: Row)
    ensures var key := GroupKey(task);
      var created := if key in groups then groups else groups[key := []];
      created[key := created[key] + [task]] == Push(groups, task)
  {
  }

  lemma MembersSnoc(tasks: seq<Row>, task: Row, key: string)
    ensures Members(tasks + [task], key) == Members(tasks, key) + (if GroupKey(task) == key then [task] else [])
  {
    var all := tasks + [task];
    assert all[..|all| - 1] == tasks;
  }

  /** Grouping one more task is one more call of the callback. */
  lemma GroupingSnoc(tasks: seq<Row>, task: Row)
    ensures Grouping(tasks + [task]) == Push(Grouping(tasks), task)
  {
    var g, key := Grouping(tasks), GroupKey(task);
    var all := tasks + [task];
    var grown := Push(g, task);
    KeysSnoc(tasks, task);
    if key !in g {
      MembersUnused(tasks, key);
    }
    assert Grouping(all).Keys == grown.Keys;
    forall k | k in grown ensures Grouping(all)[k] == grown[k] {
      MembersSnoc(tasks, task, k);
    }
  }

  /** `leaves.reduce(...)`: create a group on a key's first use, then push the task. */
  method GroupLeaves(leaves: seq<Row>) returns (groups: map<string, seq<Row>>)
    ensures groups == Grouping(leaves)
  {
    groups := map[];
    var i := 0;
    while i < |leaves|
      invariant 0 <= i <= |leaves|
      invariant groups == Grouping(leaves[..i])
    {
      var task := leaves[i];
      var key := GroupKey(task);
      ghost var before := groups;
      if key !in groups {
        groups := groups[key := []];
      }
      groups := groups[key := groups[key] + [task]];
      CreateThenPush(before, task);
      assert leaves[..i + 1] == leaves[..i] + [task];
      GroupingSnoc(leaves[..i], task);
      i := i + 1;
    }
    assert leaves[..|leaves|] == leaves;
  }

  /**
   * Every leaf is in the group of its own key and in no other, and a key is
   * present only if some leaf maps to it, so no group is empty.
   */
  lemma GroupsPartition(leaves: seq<Row>, task: Row, key: string)
    ensures var groups := Grouping(leaves);
      (key in groups <==> exists i :: 0 <= i < |leaves| && GroupKey(leaves[i]) == key)
      && (key in groups ==> groups[key] != [])
      && (key in groups ==> (task in groups[key] <==> task in leaves && GroupKey(task) == key))
  {
    var groups := Grouping(leaves);
    MembersExact(leaves, key, task);
    if key in groups {
      var i :| 0 <= i < |leaves| && GroupKey(leaves[i]) == key;
      MembersExact(leaves, key, leaves[i]);
    }
  }

  /** No leaves, no groups: the empty-state message shows exactly when there is nothing to group. */
  lemma NoLeavesNoGroups(leaves: seq<Row>)
    ensures Grouping(leaves) == map[] <==> leaves == []
  {
    if leaves != [] {
      assert GroupKey(leaves[0]) in Grouping(leaves);
    }
  }

  /** Grouping keeps input order: the group of a concatenation is the groups of its parts, in order. */
  lemma {:induction false} MembersAppend(a: seq<Row>, b: seq<Row>, key: string)
    ensures Members(a + b, key) == Members(a, key) + Members(b, key)
    decreases |b|
  {
    if b == [] {
      assert a + b == a;
    } else {
      var init, last := b[..|b| - 1], b[|b| - 1];
      var tail := if GroupKey(last) == key then [last] else [];
      MembersAppend(a, init, key);
      assert (a + b)[..|a + b| - 1] == a + init;
      assert (a + b)[|a + b| - 1] == last;
      assert Members(a + b, key) == Members(a + init, key) + tail;
      assert Members(b, key) == Members(init, key) + tail;
    }
  }

  /** The size of all groups together. */
  ghost function TotalSize(groups: map<string, seq<Row>>): nat
    decreases |groups|
  {
    if groups == map[] then 0
    else
      var key :| key in groups;
      |groups[key]| + TotalSize(groups - {key})
  }

  lemma {:induction false} TotalSizeRemove(groups: map<string, seq<Row>>, key: string)
    requires key in groups
    ensures TotalSize(groups) == |groups[key]| + TotalSize(groups - {key})
    decreases |groups|
  {
    var picked :| picked in groups && TotalSize(groups) == |groups[picked]| + TotalSize(groups - {picked});
    if picked != key {
      TotalSizeRemove(groups - {picked}, key);
      TotalSizeRemove(groups - {key}, picked);
      assert groups - {picked} - {key} == groups - {key} - {picked};
    }
  }

  /** Pushing one task onto a group, new or not, adds one to the total size. */
  lemma TotalSizeGrow(groups: map<string, seq<Row>>, task: Row)
    ensures TotalSize(Push(groups, task)) == TotalSize(groups) + 1
  {
    var key := GroupKey(task);
    var grown := Push(groups, task);
    TotalSizeRemove(grown, key);
    assert grown - {key} == groups - {key};
    if key in groups {
      TotalSizeRemove(groups, key);
    } else {
      assert groups - {key} == groups;
    }
  }

  /** The group sizes add up to the number of leaves. */
  lemma {:induction false} GroupSizesSum(leaves: seq<Row>)
    ensures TotalSize(Grouping(leaves)) == |leaves|
    decreases |leaves|
  {
    if leaves == [] {
      assert Grouping(leaves) == map[];
    } else {
      var init, last := leaves[..|leaves| - 1], leaves[|leaves| - 1];
      assert leaves == init + [last];
      GroupSizesSum(init);
      GroupingSnoc(init, last);
      TotalSizeGrow(Grouping(init), last);
    }
  }
}
