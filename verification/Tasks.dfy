/**
  What the threads of the variable-load protocol do with their bins. Thread t of T has bins
  n * t / T to n * (t + 1) / T - 1, and for every item of them it encodes the item in all slots of the
  bin's range.
 */
module Tasks {
  import opened Bits
  import opened Permutations
  import opened Slots

  /** An item and the `load` slots from `otIdx` on in which it is encoded. */
  datatype Task = Task(item: nat, otIdx: nat, load: nat)

  /** Where part t of T parts of n begins. */
  function Cut(n: nat, parts: nat, t: nat): nat
    requires parts > 0
  {
    Quot(n * t, parts)
  }

  lemma CutIs(n: nat, parts: nat, t: nat)
    requires parts > 0
    ensures Cut(n, parts, t) == n * t / parts
  {
    DivisionAgrees(n * t, parts);
  }

  lemma {:induction false} QuotGrows(a: nat, b: nat, d: nat)
    requires d > 0 && a <= b
    ensures Quot(a, d) <= Quot(b, d)
  {
    if a >= d {
      QuotGrows(a - d, b - d, d);
    }
  }

  /** The parts lie one behind the other, from 0 to n. */
  lemma CutsCover(n: nat, parts: nat, t: nat)
    requires parts > 0 && t < parts
    ensures Cut(n, parts, 0) == 0 && Cut(n, parts, t) <= Cut(n, parts, t + 1) <= Cut(n, parts, parts) == n
  {
    Digits(n, parts, 0);
    MulGrows(n, t, t + 1);
    MulGrows(n, t + 1, parts);
    QuotGrows(n * t, n * (t + 1), parts);
    QuotGrows(n * (t + 1), n * parts, parts);
    assert n * 0 == 0;
  }

  lemma {:induction false} MulGrows(n: nat, a: nat, b: nat)
    requires a <= b
    ensures 0 <= n * a <= n * b
    decreases b - a
  {
    if a < b {
      MulGrows(n, a, b - 1);
      assert n * b == n * (b - 1) + n;
    }
  }

  /** Every number below n is in one of the parts. */
  lemma {:induction false} PartOf(n: nat, parts: nat, m: nat, x: nat) returns (t: nat)
    requires parts > 0 && m <= parts && x < Cut(n, parts, m)
    ensures t < m && Cut(n, parts, t) <= x < Cut(n, parts, t + 1)
  {
    CutsCover(n, parts, 0);
    if x >= Cut(n, parts, m - 1) {
      t := m - 1;
    } else {
      t := PartOf(n, parts, m - 1, x);
    }
  }

  lemma {:induction false} CutGrows(n: nat, parts: nat, s: nat, t: nat)
    requires parts > 0 && s <= t <= parts
    ensures Cut(n, parts, s) <= Cut(n, parts, t) <= n
    decreases t - s
  {
    if s < t {
      CutGrows(n, parts, s, t - 1);
      CutsCover(n, parts, t - 1);
    } else if t < parts {
      CutsCover(n, parts, t);
    } else {
      CutsCover(n, parts, 0);
    }
  }

  /** The parts of two threads have no number in common. */
  lemma PartUnique(n: nat, parts: nat, s: nat, t: nat, x: nat)
    requires parts > 0 && s < parts && t < parts
    requires Cut(n, parts, s) <= x < Cut(n, parts, s + 1) && Cut(n, parts, t) <= x < Cut(n, parts, t + 1)
    ensures s == t
  {
    if s < t {
      CutGrows(n, parts, s + 1, t);
    } else if t < s {
      CutGrows(n, parts, t + 1, s);
    }
  }

  // ----- a thread's tasks -----

  function BinTasks(bin: seq<nat>, otIdx: nat, load: nat): (r: seq<Task>)
    ensures |r| == |bin| && forall i | 0 <= i < |r| :: r[i] == Task(bin[i], otIdx, load)
  {
    seq(|bin|, i requires 0 <= i < |bin| => Task(bin[i], otIdx, load))
  }

  /** The tasks of bins lo to hi - 1 in the order of the loop over them, whose `otIdx` moves on by a bin's load. */
  function TasksOf(bins: seq<seq<nat>>, loads: seq<nat>, lo: nat, hi: nat, otIdx: nat): seq<Task>
    requires lo <= hi <= |bins| == |loads|
    decreases hi - lo
  {
    if lo == hi then [] else BinTasks(bins[lo], otIdx, loads[lo]) + TasksOf(bins, loads, lo + 1, hi, otIdx + loads[lo])
  }

  /** Task k stands for item i of bin b. */
  ghost predicate Stands(bins: seq<seq<nat>>, loads: seq<nat>, task: Task, b: nat, i: nat) {
    b < |bins| && b < |loads| && i < |bins[b]| && task == Task(bins[b][i], Start(loads, b), loads[b])
  }

  ghost predicate StandsIn(bins: seq<seq<nat>>, loads: seq<nat>, task: Task, lo: nat, hi: nat) {
    exists b: nat, i: nat :: lo <= b < hi && Stands(bins, loads, task, b, i)
  }

  lemma {:induction false} TasksStand(bins: seq<seq<nat>>, loads: seq<nat>, lo: nat, hi: nat, k: nat)
    requires lo <= hi <= |bins| == |loads| && k < |TasksOf(bins, loads, lo, hi, Start(loads, lo))|
    ensures StandsIn(bins, loads, TasksOf(bins, loads, lo, hi, Start(loads, lo))[k], lo, hi)
    decreases hi - lo
  {
    if lo < hi {
      var m := |bins[lo]|;
      if k < m {
        assert Stands(bins, loads, TasksOf(bins, loads, lo, hi, Start(loads, lo))[k], lo, k);
      } else {
        TasksStand(bins, loads, lo + 1, hi, k - m);
      }
    }
  }

  lemma {:induction false} TasksHave(bins: seq<seq<nat>>, loads: seq<nat>, lo: nat, hi: nat, b: nat,
                                     i: nat) returns (k: nat)
    requires lo <= b < hi <= |bins| == |loads| && i < |bins[b]|
    ensures k < |TasksOf(bins, loads, lo, hi, Start(loads, lo))|
            && TasksOf(bins, loads, lo, hi, Start(loads, lo))[k].item == bins[b][i]
    decreases hi - lo
  {
    if b == lo {
      k := i;
    } else {
      k := TasksHave(bins, loads, lo + 1, hi, b, i);
      k := k + |bins[lo]|;
    }
  }

  lemma {:induction false} TasksDiffer(bins: seq<seq<nat>>, loads: seq<nat>, lo: nat, hi: nat, n: nat, k: nat, k': nat)
    requires lo <= hi <= |bins| == |loads| && SplitsBelow(bins, n)
    requires k < k' < |TasksOf(bins, loads, lo, hi, Start(loads, lo))|
    ensures TasksOf(bins, loads, lo, hi, Start(loads, lo))[k].item != TasksOf(bins, loads, lo, hi,
            Start(loads, lo))[k'].item
    decreases hi - lo
  {
    var m := |bins[lo]|;
    if k >= m {
      TasksDiffer(bins, loads, lo + 1, hi, n, k - m, k' - m);
    } else if k' >= m {
      TasksStand(bins, loads, lo + 1, hi, k' - m);
      var task := TasksOf(bins, loads, lo + 1, hi, Start(loads, lo + 1))[k' - m];
      var b: nat, i: nat :| lo + 1 <= b < hi && Stands(bins, loads, task, b, i);
      assert bins[b][i] != bins[lo][k];
    }
  }

  // ----- all threads' tasks -----

  /** Between them the threads have every item once, each with its bin's range of slots. */
  ghost predicate WorkOk(work: seq<seq<Task>>, bin: seq<nat>, loads: seq<nat>) {
    && |work| > 0
    && (forall t, k | 0 <= t < |work| && 0 <= k < |work[t]| :: TaskOk(work[t][k], bin, loads))
    && (forall t, k, t', k' | 0 <= t < |work| && 0 <= k < |work[t]| && 0 <= t' < |work| && 0 <= k' < |work[t']| ::
          work[t][k].item == work[t'][k'].item ==> t == t' && k == k')
    && forall x: nat | x < |bin| :: HasTask(work, x)
  }

  ghost predicate TaskOk(task: Task, bin: seq<nat>, loads: seq<nat>) {
    && task.item < |bin| && bin[task.item] < |loads|
    && task.otIdx == Start(loads, bin[task.item]) && task.load == loads[bin[task.item]]
  }

  ghost predicate HasTask(work: seq<seq<Task>>, x: nat) {
    exists t: nat, k: nat :: t < |work| && k < |work[t]| && work[t][k].item == x
  }

  function WorkOf(bins: seq<seq<nat>>, loads: seq<nat>, parts: nat): (work: seq<seq<Task>>)
    requires |bins| == |loads| && parts > 0
    ensures |work| == parts
  {
    seq(parts, t requires 0 <= t < parts =>
      CutsCover(|bins|, parts, t);
      TasksOf(bins, loads, Cut(|bins|, parts, t), Cut(|bins|, parts, t + 1), Start(loads, Cut(|bins|, parts, t))))
  }

  /** The threads' loops over their ranges of bins cover the items like that. */
  lemma WorkIsOk(bin: seq<nat>, bins: seq<seq<nat>>, loads: seq<nat>, parts: nat)
    requires |bins| == |loads| && parts > 0 && SplitsBelow(bins, |bin|)
    requires forall b, i | 0 <= b < |bins| && 0 <= i < |bins[b]| :: bin[bins[b][i]] == b
    ensures WorkOk(WorkOf(bins, loads, parts), bin, loads)
  {
    hide TasksOf, Cut, Start;
    var work := WorkOf(bins, loads, parts);
    forall t: nat, k: nat | t < parts && k < |work[t]| ensures TaskOk(work[t][k], bin, loads) {
      var b, i := TaskStands(bins, loads, parts, t, k);
    }
    forall t: nat, k: nat, t': nat, k': nat | t < parts && k < |work[t]| && t' < parts && k' < |work[t']|
        && work[t][k].item == work[t'][k'].item
      ensures t == t' && k == k'
    {
      var b, i := TaskStands(bins, loads, parts, t, k);
      var b', i' := TaskStands(bins, loads, parts, t', k');
      PartUnique(|bins|, parts, t, t', b);
      CutsCover(|bins|, parts, t);
      if k < k' {
        TasksDiffer(bins, loads, Cut(|bins|, parts, t), Cut(|bins|, parts, t + 1), |bin|, k, k');
      } else if k' < k {
        TasksDiffer(bins, loads, Cut(|bins|, parts, t), Cut(|bins|, parts, t + 1), |bin|, k', k);
      }
    }
    forall x: nat | x < |bin| ensures HasTask(work, x) {
      assert HasPart(bins, x);
      var b, i :| 0 <= b < |bins| && 0 <= i < |bins[b]| && bins[b][i] == x;
      CutsCover(|bins|, parts, 0);
      var t := PartOf(|bins|, parts, parts, b);
      CutsCover(|bins|, parts, t);
      var k := TasksHave(bins, loads, Cut(|bins|, parts, t), Cut(|bins|, parts, t + 1), b, i);
      assert work[t][k].item == x;
    }
  }

  lemma TaskStands(bins: seq<seq<nat>>, loads: seq<nat>, parts: nat, t: nat, k: nat) returns (b: nat, i: nat)
    requires |bins| == |loads| && t < parts && k < |WorkOf(bins, loads, parts)[t]|
    ensures Stands(bins, loads, WorkOf(bins, loads, parts)[t][k], b, i)
    ensures Cut(|bins|, parts, t) <= b < Cut(|bins|, parts, t + 1)
  {
    hide TasksOf, Cut, Start;
    CutsCover(|bins|, parts, t);
    TasksStand(bins, loads, Cut(|bins|, parts, t), Cut(|bins|, parts, t + 1), k);
    b, i :| Cut(|bins|, parts, t) <= b < Cut(|bins|, parts, t + 1)
        && Stands(bins, loads, WorkOf(bins, loads, parts)[t][k], b, i);
  }

  // ----- how many rows -----

  /** The rows of the first k tasks. */
  function RowsBefore(tasks: seq<Task>, k: nat): nat
    requires k <= |tasks|
  {
    if k == 0 then 0 else RowsBefore(tasks, k - 1) + tasks[k - 1].load
  }

  lemma NextTask(tasks: seq<Task>, k: nat)
    requires k < |tasks|
    ensures RowsBefore(tasks, 0) == 0 && RowsBefore(tasks, k + 1) == RowsBefore(tasks, k) + tasks[k].load
  {}

  lemma {:induction false} RowsGrow(tasks: seq<Task>, j: nat, k: nat)
    requires j < k <= |tasks|
    ensures RowsBefore(tasks, j) + tasks[j].load <= RowsBefore(tasks, k)
    decreases k
  {
    if j < k - 1 {
      RowsGrow(tasks, j, k - 1);
    }
  }

  /** Row number `off` of the first k tasks is row l of some task. */
  lemma {:induction false} RowAtOffset(tasks: seq<Task>, k: nat, off: nat) returns (j: nat, l: nat)
    requires k <= |tasks| && off < RowsBefore(tasks, k)
    ensures j < k && l < tasks[j].load && off == RowsBefore(tasks, j) + l
  {
    if off >= RowsBefore(tasks, k - 1) {
      j, l := k - 1, off - RowsBefore(tasks, k - 1);
    } else {
      j, l := RowAtOffset(tasks, k - 1, off);
    }
  }

  /** Different rows have different offsets. */
  lemma OffsetsDiffer(tasks: seq<Task>, j: nat, l: nat, j': nat, l': nat)
    requires j < |tasks| && j' < |tasks| && l < tasks[j].load && l' < tasks[j'].load
    requires RowsBefore(tasks, j) + l == RowsBefore(tasks, j') + l'
    ensures j == j' && l == l'
  {
    if j < j' {
      RowsGrow(tasks, j, j');
    } else if j' < j {
      RowsGrow(tasks, j', j);
    }
  }

  /** The count that a thread announces: for each of its bins, its size times its load. */
  function CountOf(bins: seq<seq<nat>>, loads: seq<nat>, lo: nat, hi: nat): nat
    requires lo <= hi <= |bins| == |loads|
    decreases hi - lo
  {
    if lo == hi then 0 else |bins[lo]| * loads[lo] + CountOf(bins, loads, lo + 1, hi)
  }

  lemma {:induction false} SameLoads(tasks: seq<Task>, more: seq<Task>, load: nat, k: nat)
    requires k <= |tasks| && forall i | 0 <= i < |tasks| :: tasks[i].load == load
    ensures RowsBefore(tasks + more, k) == k * load
  {
    if k > 0 {
      SameLoads(tasks, more, load, k - 1);
      assert k * load == (k - 1) * load + load;
    }
  }

  lemma {:induction false} RowsAppend(tasks: seq<Task>, more: seq<Task>, k: nat)
    requires k <= |more|
    ensures RowsBefore(tasks + more, |tasks| + k) == RowsBefore(tasks + more, |tasks|) + RowsBefore(more, k)
  {
    if k > 0 {
      RowsAppend(tasks, more, k - 1);
      assert (tasks + more)[|tasks| + k - 1] == more[k - 1];
    }
  }

  /** The announced count is the number of rows the thread writes. */
  lemma {:induction false} CountIsRows(bins: seq<seq<nat>>, loads: seq<nat>, lo: nat, hi: nat, otIdx: nat)
    requires lo <= hi <= |bins| == |loads|
    ensures var tasks := TasksOf(bins, loads, lo, hi, otIdx); RowsBefore(tasks, |tasks|) == CountOf(bins, loads, lo, hi)
    decreases hi - lo
  {
    if lo < hi {
      var here, more := BinTasks(bins[lo], otIdx, loads[lo]), TasksOf(bins, loads, lo + 1, hi, otIdx + loads[lo]);
      CountIsRows(bins, loads, lo + 1, hi, otIdx + loads[lo]);
      SameLoads(here, more, loads[lo], |here|);
      RowsAppend(here, more, |more|);
      assert |here + more| == |here| + |more|;
    }
  }

  // ----- sums over the threads -----

  function Sum(s: seq<int>): int {
    if s == [] then 0 else Sum(s[..|s| - 1]) + s[|s| - 1]
  }

  lemma {:induction false} SumUpdate(s: seq<int>, t: nat, x: int)
    requires t < |s|
    ensures Sum(s[t := x]) == Sum(s) - s[t] + x
  {
    var n := |s| - 1;
    if t < n {
      SumUpdate(s[..n], t, x);
      assert s[t := x][..n] == s[..n][t := x];
    } else {
      assert s[t := x][..n] == s[..n];
    }
  }

  lemma {:induction false} SumIsNat(s: seq<int>)
    requires forall t | 0 <= t < |s| :: s[t] >= 0
    ensures Sum(s) >= 0
  {
    if s != [] {
      SumIsNat(s[..|s| - 1]);
    }
  }
}
