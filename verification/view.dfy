/**
 * The selection cursor `StatefulList` of `src/view.rs`. It keeps two separate
 * selections: `selectedNum`, which callers read, and `widget`, the list
 * widget's own selection, which `Next` and `Previous` read. `Unselect` clears
 * only the widget selection.
 */
module View {
  import opened Wrappers

  /** A list of items with the caller-visible and the widget selections. */
  datatype StatefulList<T> = StatefulList(selectedNum: Option<nat>, widget: Option<nat>, items: seq<T>)

  /** A list with nothing selected. */
  function WithItems<T>(items: seq<T>): (l: StatefulList<T>)
    ensures l.selectedNum.None? && l.widget.None?
    ensures l.items == items
  {
    StatefulList(None, None, items)
  }

  /** The selection callers act on. */
  function GetSelectedNum<T>(l: StatefulList<T>): Option<nat>
  {
    l.selectedNum
  }

  /** Selects position `n` in both selection fields. */
  function SetSelectedNum<T>(l: StatefulList<T>, n: nat): (r: StatefulList<T>)
    ensures GetSelectedNum(r) == Some(n) && r.widget == Some(n)
    ensures r.items == l.items
  {
    l.(selectedNum := Some(n), widget := Some(n))
  }

  /**
   * Whether `next` can run: from any widget selection it computes `len - 1`
   * in unsigned arithmetic, which underflows on an empty list.
   */
  predicate CanNext<T>(l: StatefulList<T>)
  {
    l.widget.Some? ==> |l.items| > 0
  }

  /**
   * Whether `previous` can run: it computes `len - 1` only from a widget
   * selection of 0, so only that selection underflows on an empty list.
   */
  predicate CanPrevious<T>(l: StatefulList<T>)
  {
    l.widget == Some(0) ==> |l.items| > 0
  }

  /** `next`: moves the widget selection one place down, wrapping to the top. */
  function Next<T>(l: StatefulList<T>): (r: StatefulList<T>)
    requires CanNext(l)
    ensures r.items == l.items
    ensures r.widget.Some? && GetSelectedNum(r) == r.widget
    ensures l.widget.None? ==> r.widget == Some(0)
    ensures l.widget.Some? && l.widget.value < |l.items| ==>
              r.widget == Some((l.widget.value + 1) % |l.items|)
    ensures l.widget.Some? && l.widget.value >= |l.items| ==> r.widget == Some(0)
    ensures |l.items| > 0 ==> r.widget.value < |l.items|
  {
    var i := match l.widget
      case Some(i) => if i >= |l.items| - 1 then 0 else i + 1
      case None => 0;
    if l.widget.Some? && l.widget.value < |l.items| then
      Wrap(l.widget.value, |l.items|);
      SetSelectedNum(l, i)
    else
      SetSelectedNum(l, i)
  }

  /**
   * `previous`: moves the widget selection one place up, wrapping to the
   * bottom. A stale selection past the end only steps back by one.
   */
  function Previous<T>(l: StatefulList<T>): (r: StatefulList<T>)
    requires CanPrevious(l)
    ensures r.items == l.items
    ensures r.widget.Some? && GetSelectedNum(r) == r.widget
    ensures l.widget.None? ==> r.widget == Some(0)
    ensures l.widget.Some? && l.widget.value < |l.items| ==>
              r.widget == Some((l.widget.value + |l.items| - 1) % |l.items|)
    ensures l.widget.Some? && l.widget.value >= |l.items| ==> r.widget == Some(l.widget.value - 1)
  {
    var i := match l.widget
      case Some(i) => if i == 0 then |l.items| - 1 else i - 1
      case None => 0;
    if l.widget.Some? && l.widget.value < |l.items| then
      Wrap(l.widget.value, |l.items|);
      SetSelectedNum(l, i)
    else
      SetSelectedNum(l, i)
  }

  /** `delete`: removes the item at `index`; neither selection is touched. */
  function Delete<T>(l: StatefulList<T>, index: nat): (r: StatefulList<T>)
    requires index < |l.items|
    ensures |r.items| == |l.items| - 1
    ensures forall j :: 0 <= j < index ==> r.items[j] == l.items[j]
    ensures forall j :: index <= j < |r.items| ==> r.items[j] == l.items[j + 1]
    ensures multiset(r.items) + multiset{l.items[index]} == multiset(l.items)
    ensures r.selectedNum == l.selectedNum && r.widget == l.widget
  {
    assert l.items == l.items[..index] + [l.items[index]] + l.items[index + 1..];
    l.(items := l.items[..index] + l.items[index + 1..])
  }

  /** `unselect`: clears only the widget selection. */
  function Unselect<T>(l: StatefulList<T>): (r: StatefulList<T>)
    ensures r.widget.None?
    ensures GetSelectedNum(r) == GetSelectedNum(l)
    ensures r.items == l.items
  {
    l.(widget := None)
  }

  /** For a valid selection, `previous` undoes `next` and `next` undoes `previous`. */
  lemma {:induction false} StepInverse<T>(l: StatefulList<T>)
    requires l.widget.Some? && l.widget.value < |l.items|
    ensures Previous(Next(l)).widget == l.widget
    ensures Next(Previous(l)).widget == l.widget
  {
    Wrap(l.widget.value, |l.items|);
  }

  /** `n` successive `next` calls. */
  function NextTimes<T>(l: StatefulList<T>, n: nat): (r: StatefulList<T>)
    requires |l.items| > 0
    ensures r.items == l.items
  {
    if n == 0 then l else Next(NextTimes(l, n - 1))
  }

  /** From a valid selection `i`, `n` calls of `next` select `(i + n) % len`. */
  lemma {:induction false} NextTimesPosition<T>(l: StatefulList<T>, n: nat)
    requires l.widget.Some? && l.widget.value < |l.items|
    ensures NextTimes(l, n).widget == Some((l.widget.value + n) % |l.items|)
  {
    if n > 0 {
      NextTimesPosition(l, n - 1);
      ModSucc(l.widget.value + n - 1, |l.items|);
    }
  }

  /** Division by a positive modulus has a unique quotient and remainder. */
  lemma {:induction false} ModUnique(a: int, m: int, q: int, r: int)
    requires m > 0 && 0 <= r < m && a == q * m + r
    ensures a % m == r
  {
    var d := q - a / m;
    assert d * m == a % m - r;
    MulBound(d, m);
  }

  /** A non-zero multiple of a positive number is at least that number away from zero. */
  lemma {:induction false} MulBound(d: int, m: int)
    requires m > 0
    ensures d >= 1 ==> d * m >= m
    ensures d <= -1 ==> d * m <= -m
  {
  }

  /** One step forward or back from a position in range, modulo `m`, wraps only at the ends. */
  lemma {:induction false} Wrap(i: nat, m: nat)
    requires i < m
    ensures (i + 1) % m == if i == m - 1 then 0 else i + 1
    ensures (i + m - 1) % m == if i == 0 then m - 1 else i - 1
  {
    if i == m - 1 {
      ModUnique(i + 1, m, 1, 0);
    } else {
      ModUnique(i + 1, m, 0, i + 1);
    }
    if i == 0 {
      ModUnique(i + m - 1, m, 0, m - 1);
    } else {
      ModUnique(i + m - 1, m, 1, i - 1);
    }
  }

  /** Adding the modulus to a position in range leaves its remainder unchanged. */
  lemma {:induction false} AddModulus(k: nat, m: nat)
    requires k < m
    ensures (k + m) % m == k
  {
    ModUnique(k + m, m, 1, k);
  }

  /** Taking the remainder before or after a successor step gives the same position. */
  lemma {:induction false} ModSucc(a: nat, m: nat)
    requires m > 0
    ensures (a % m + 1) % m == (a + 1) % m
  {
    var q, r := a / m, a % m;
    assert a == q * m + r;
    if r + 1 < m {
      ModUnique(a + 1, m, q, r + 1);
      ModUnique(r + 1, m, 0, r + 1);
    } else {
      ModUnique(a + 1, m, q + 1, 0);
      ModUnique(r + 1, m, 1, 0);
    }
  }

  /** Calling `next` once per item brings a valid selection back to where it started. */
  lemma {:induction false} NextFullCircle<T>(l: StatefulList<T>)
    requires l.widget.Some? && l.widget.value < |l.items|
    ensures NextTimes(l, |l.items|).widget == l.widget
  {
    NextTimesPosition(l, |l.items|);
    AddModulus(l.widget.value, |l.items|);
  }

  /** The quirk of `unselect`: the caller-visible selection survives it, so a save still targets the old index. */
  lemma {:induction false} UnselectKeepsSaveTarget<T>(l: StatefulList<T>, n: nat)
    ensures GetSelectedNum(Unselect(SetSelectedNum(l, n))) == Some(n)
    ensures Unselect(SetSelectedNum(l, n)).widget.None?
  {
  }
}
