/**
 * The home page controller: the list collection, the selected list, the
 * tasks of the last task response to arrive and the error slot, and the
 * events that change them (fetch completions, the effect that reacts to a
 * new list collection, clicks and keyboard navigation over the list box).
 */
module Home {
  import opened Wrappers
  import opened Tasks

  /** A task list as the lists endpoint returns it. */
  datatype TodoList = TodoList(id: string, title: string)

  /** How a fetch completes: with the response data, or with the error's text. */
  datatype Response<T> = Ok(data: T) | Failed(err: string)

  const ListsFetchFailed: string := "リストの取得に失敗しました。"
  const TasksFetchFailed: string := "タスクの取得に失敗しました。"

  /** The display mode the page starts in: open tasks. */
  const TodoMode: string := "todo"

  const ArrowDown: string := "ArrowDown"
  const ArrowUp: string := "ArrowUp"
  const Enter: string := "Enter"

  // ---------------------------------------------------------------------
  // Navigation over the ordered list collection

  /**
   * `lists.findIndex(list => list.id === selected)`: the first position
   * holding the selected id, or -1 (always -1 when nothing is selected).
   */
  function FindIndex(lists: seq<TodoList>, selected: Option<string>): (i: int)
    ensures -1 <= i < |lists|
    ensures 0 <= i ==> selected == Some(lists[i].id)
    ensures 0 <= i ==> forall j :: 0 <= j < i ==> selected != Some(lists[j].id)
    ensures i == -1 <==> forall j :: 0 <= j < |lists| ==> selected != Some(lists[j].id)
  {
    if lists == [] then -1
    else if selected == Some(lists[0].id) then 0
    else
      var k := FindIndex(lists[1..], selected);
      if k == -1 then -1 else k + 1
  }

  /** One step down the list box; the last list wraps round to the first. */
  function NextIndex(i: int, n: int): (j: int)
    requires n > 0 && -1 <= i < n
    ensures 0 <= j < n
  {
    if i == n - 1 then 0 else i + 1
  }

  /**
   * One step up the list box; the first list wraps round to the last, and
   * from "not found" (-1) the step lands on the last but one.
   */
  function PrevIndex(i: int, n: int): (j: int)
    requires n > 0 && -1 <= i < n
    ensures 0 <= j < n
  {
    if i > 0 then i - 1
    else if i == 0 then n - 1
    else if n == 1 then 0
    else n - 2
  }

  /**
   * The handler computes the step down as `(i + 1) % n`: its dividend is
   * never negative, so JavaScript's `%` and Dafny's agree.
   */
  lemma NextIndexIsRemainder(i: int, n: int)
    requires n > 0 && -1 <= i < n
    ensures NextIndex(i, n) == (i + 1) % n
  {
    if i == n - 1 {
      DivModUnique(i + 1, n, 1, 0);
    } else {
      DivModUnique(i + 1, n, 0, i + 1);
    }
  }

  /**
   * The handler computes the step up as `(i - 1 + n) % n`. The dividend is
   * negative only for `-1 % 1`, which is 0 in Dafny and -0 (the same index)
   * in JavaScript.
   */
  lemma PrevIndexIsRemainder(i: int, n: int)
    requires n > 0 && -1 <= i < n
    ensures PrevIndex(i, n) == (i - 1 + n) % n
  {
    if i > 0 {
      DivModUnique(i - 1 + n, n, 1, i - 1);
    } else if i == 0 {
      DivModUnique(n - 1, n, 0, n - 1);
    } else if n == 1 {
      DivModUnique(-1, 1, -1, 0);
    } else {
      DivModUnique(n - 2, n, 0, n - 2);
    }
  }

  /** `a == q * n + m` with `0 <= m < n` pins down `a / n` and `a % n`. */
  lemma DivModUnique(a: int, n: int, q: int, m: int)
    requires n > 0 && 0 <= m < n && a == q * n + m
    ensures a / n == q && a % n == m
  {
    var q', m' := a / n, a % n;
    assert q' * n + m' == a;
    if q > q' {
      MulAtLeast(q - q', n);
    } else if q < q' {
      MulAtLeast(q' - q, n);
    }
  }

  /** A positive multiple of `n` is at least `n`. */
  lemma {:induction false} MulAtLeast(x: int, n: int)
    requires x >= 1 && n > 0
    ensures x * n >= n
  {
    if x > 1 {
      MulAtLeast(x - 1, n);
      assert x * n == (x - 1) * n + n;
    }
  }

  /** The id the selection moves to on ArrowDown (`down`) or ArrowUp. */
  function ArrowTarget(lists: seq<TodoList>, selected: Option<string>, down: bool): (id: string)
    requires |lists| > 0
    ensures FindIndex(lists, Some(id)) >= 0
  {
    var i := FindIndex(lists, selected);
    var k := if down then NextIndex(i, |lists|) else PrevIndex(i, |lists|);
    lists[k].id
  }

  /**
   * ArrowDown from position `i` (-1 when the selection is not found)
   * selects `lists[(i + 1) mod n]`.
   */
  lemma ArrowDownModular(lists: seq<TodoList>, selected: Option<string>, k: int)
    requires |lists| > 0 && k == (FindIndex(lists, selected) + 1) % |lists|
    ensures 0 <= k < |lists| && ArrowTarget(lists, selected, true) == lists[k].id
  {
    NextIndexIsRemainder(FindIndex(lists, selected), |lists|);
  }

  /**
   * ArrowUp from position `i` (-1 when the selection is not found) selects
   * `lists[(i - 1 + n) mod n]`.
   */
  lemma ArrowUpModular(lists: seq<TodoList>, selected: Option<string>, k: int)
    requires |lists| > 0 && k == (FindIndex(lists, selected) - 1 + |lists|) % |lists|
    ensures 0 <= k < |lists| && ArrowTarget(lists, selected, false) == lists[k].id
  {
    PrevIndexIsRemainder(FindIndex(lists, selected), |lists|);
  }

  /** No two lists share an id (the list box keys its items by id). */
  predicate DistinctIds(lists: seq<TodoList>) {
    forall j, k :: 0 <= j < k < |lists| ==> lists[j].id != lists[k].id
  }

  /** With distinct ids, looking up the id at a position finds that position. */
  lemma FindIndexOfPosition(lists: seq<TodoList>, k: int)
    requires DistinctIds(lists) && 0 <= k < |lists|
    ensures FindIndex(lists, Some(lists[k].id)) == k
  {
  }

  /**
   * Without distinct ids the round trip can fail: in `[b, a, b]` ArrowDown
   * from "a" selects "b", and ArrowUp then finds "b" first at position 0
   * and wraps to the last list, not back to "a".
   */
  lemma DownThenUpNeedsDistinctIds()
    ensures var lists := [TodoList("b", ""), TodoList("a", ""), TodoList("b", "")];
      && FindIndex(lists, Some("a")) == 1
      && ArrowTarget(lists, Some("a"), true) == "b"
      && ArrowTarget(lists, Some(ArrowTarget(lists, Some("a"), true)), false) == "b"
  {
    var lists := [TodoList("b", ""), TodoList("a", ""), TodoList("b", "")];
    assert lists[1..] == [TodoList("a", ""), TodoList("b", "")];
    assert FindIndex(lists, Some("b")) == 0;
  }

  /** ArrowDown then ArrowUp comes back to a selection that was in the list. */
  lemma DownThenUpRestores(lists: seq<TodoList>, selected: Option<string>)
    requires DistinctIds(lists) && FindIndex(lists, selected) >= 0
    ensures ArrowTarget(lists, Some(ArrowTarget(lists, selected, true)), false) == selected.value
  {
    var n, i := |lists|, FindIndex(lists, selected);
    var j := NextIndex(i, n);
    FindIndexOfPosition(lists, j);
    assert PrevIndex(j, n) == i;
  }

  /** ArrowUp then ArrowDown comes back to a selection that was in the list. */
  lemma UpThenDownRestores(lists: seq<TodoList>, selected: Option<string>)
    requires DistinctIds(lists) && FindIndex(lists, selected) >= 0
    ensures ArrowTarget(lists, Some(ArrowTarget(lists, selected, false)), true) == selected.value
  {
    var n, i := |lists|, FindIndex(lists, selected);
    var j := PrevIndex(i, n);
    FindIndexOfPosition(lists, j);
    assert NextIndex(j, n) == i;
  }

  // ---------------------------------------------------------------------
  // The page state

  class HomePage {
    /** The display mode chosen in the select box ("todo" or "done"). */
    var isDoneDisplay: string
    var lists: seq<TodoList>
    var selectListId: Option<string>
    /** The `tasks` field of the last task response that arrived (may be null). */
    var tasks: Option<seq<Task>>
    var errorMessage: string
    /** The lists fetch issued on mount has not completed yet. */
    var listsPending: bool
    /** Task fetches issued and not yet completed, by the list id asked for, in issue order. */
    var tasksPending: seq<Option<string>>

    /**
     * A selection always names a list of the collection, and once the
     * collection is non-empty there is a selection; nothing is selected
     * before the collection arrives.
     */
    ghost predicate Valid()
      reads this
    {
      && (selectListId.Some? ==> FindIndex(lists, selectListId) >= 0)
      && (|lists| > 0 ==> selectListId.Some?)
      && (listsPending ==> selectListId.None?)
    }

    /** Mounting: initial state, the lists fetch issued, the lists effect run on `[]`. */
    constructor ()
      ensures Valid()
      ensures isDoneDisplay == TodoMode && lists == [] && selectListId == None
      ensures tasks == Some([]) && errorMessage == ""
      ensures listsPending && tasksPending == []
    {
      isDoneDisplay := TodoMode;
      lists := [];
      selectListId := None;
      tasks := Some([]);
      errorMessage := "";
      listsPending := true;
      tasksPending := [];
      new;
      ListsChanged();
    }

    /**
     * The effect that runs whenever `lists` changes: select the first list
     * and fetch its tasks; on an empty collection do nothing.
     */
    method ListsChanged()
      modifies this
      ensures |lists| > 0 ==> selectListId == Some(lists[0].id)
                              && tasksPending == old(tasksPending) + [Some(lists[0].id)]
      ensures |lists| == 0 ==> selectListId == old(selectListId) && tasksPending == old(tasksPending)
      ensures lists == old(lists) && tasks == old(tasks) && errorMessage == old(errorMessage)
      ensures listsPending == old(listsPending) && isDoneDisplay == old(isDoneDisplay)
    {
      if |lists| > 0 {
        var listId := lists[0].id;
        selectListId := Some(listId);
        tasksPending := tasksPending + [Some(listId)];
      }
    }

    /**
     * The lists fetch completes. On success the collection is replaced and
     * the lists effect runs; on failure only the error slot changes.
     */
    method CompleteListsFetch(response: Response<seq<TodoList>>)
      requires Valid() && listsPending
      modifies this
      ensures Valid() && !listsPending
      ensures response.Ok? ==> lists == response.data && errorMessage == old(errorMessage)
      ensures response.Ok? && |lists| > 0 ==>
        selectListId == Some(lists[0].id) && tasksPending == old(tasksPending) + [selectListId]
      ensures response.Ok? && |lists| == 0 ==>
        selectListId == old(selectListId) && tasksPending == old(tasksPending)
      ensures response.Failed? ==>
        && lists == old(lists) && errorMessage == ListsFetchFailed + response.err
        && selectListId == old(selectListId) && tasksPending == old(tasksPending)
      ensures tasks == old(tasks) && isDoneDisplay == old(isDoneDisplay)
    {
      listsPending := false;
      match response
      case Ok(data) =>
        lists := data;
        ListsChanged();
      case Failed(err) =>
        errorMessage := ListsFetchFailed + err;
    }

    /**
     * `handleSelectList(id)`: select `id` and fetch its tasks. Its callers
     * pass the id of a list of the collection (a click) or the current
     * selection (Enter).
     */
    method SelectList(id: Option<string>)
      requires Valid()
      requires id == selectListId || FindIndex(lists, id) >= 0
      modifies this
      ensures Valid()
      ensures selectListId == id && tasksPending == old(tasksPending) + [id]
      ensures lists == old(lists) && tasks == old(tasks) && errorMessage == old(errorMessage)
      ensures listsPending == old(listsPending) && isDoneDisplay == old(isDoneDisplay)
    {
      selectListId := id;
      tasksPending := tasksPending + [id];
    }

    /** A click on the list item at position `k`. */
    method ClickList(k: nat)
      requires Valid() && k < |lists|
      modifies this
      ensures Valid()
      ensures lists == old(lists) && tasks == old(tasks) && errorMessage == old(errorMessage)
      ensures selectListId == Some(lists[k].id) && tasksPending == old(tasksPending) + [selectListId]
      ensures listsPending == old(listsPending) && isDoneDisplay == old(isDoneDisplay)
    {
      SelectList(Some(lists[k].id));
    }

    /**
     * The task fetch at position `i` of the pending ones completes (fetches
     * may complete in any order). On success `tasks` becomes the response's
     * `tasks` field and the error slot is kept; on failure only the error
     * slot changes.
     */
    method CompleteTasksFetch(i: nat, response: Response<Option<seq<Task>>>)
      requires Valid() && i < |tasksPending|
      modifies this
      ensures Valid()
      ensures tasksPending == old(tasksPending[..i] + tasksPending[i + 1..])
      ensures response.Ok? ==> tasks == response.data && errorMessage == old(errorMessage)
      ensures response.Failed? ==>
        tasks == old(tasks) && errorMessage == TasksFetchFailed + response.err
      ensures lists == old(lists) && selectListId == old(selectListId)
      ensures listsPending == old(listsPending) && isDoneDisplay == old(isDoneDisplay)
    {
      tasksPending := tasksPending[..i] + tasksPending[i + 1..];
      match response
      case Ok(data) =>
        tasks := data;
      case Failed(err) =>
        errorMessage := TasksFetchFailed + err;
    }

    /**
     * `handleKeyDown`: ArrowDown and ArrowUp move the selection circularly
     * and fetch nothing, Enter re-selects the current list and fetches its
     * tasks, and these three keys suppress the default action
     * (`prevented`); any other key changes nothing.
     */
    method HandleKeyDown(key: string) returns (prevented: bool)
      requires Valid()
      requires key == ArrowDown || key == ArrowUp ==> |lists| > 0
      modifies this
      ensures Valid()
      ensures lists == old(lists) && tasks == old(tasks) && errorMessage == old(errorMessage)
      ensures listsPending == old(listsPending) && isDoneDisplay == old(isDoneDisplay)
      ensures prevented <==> key == ArrowDown || key == ArrowUp || key == Enter
      ensures key == ArrowDown ==>
        selectListId == Some(ArrowTarget(lists, old(selectListId), true))
        && tasksPending == old(tasksPending)
      ensures key == ArrowUp ==>
        selectListId == Some(ArrowTarget(lists, old(selectListId), false))
        && tasksPending == old(tasksPending)
      ensures key == Enter ==>
        selectListId == old(selectListId) && tasksPending == old(tasksPending) + [selectListId]
      ensures !prevented ==> selectListId == old(selectListId) && tasksPending == old(tasksPending)
    {
      var currentIndex := FindIndex(lists, selectListId);
      if key == ArrowDown {
        prevented := true;
        var nextIndex := NextIndex(currentIndex, |lists|);
        selectListId := Some(lists[nextIndex].id);
      } else if key == ArrowUp {
        prevented := true;
        var prevIndex := PrevIndex(currentIndex, |lists|);
        selectListId := Some(lists[prevIndex].id);
      } else if key == Enter {
        prevented := true;
        SelectList(selectListId);
      } else {
        prevented := false;
      }
    }

    /** `handleIsDoneDisplayChange`: the select box picks a display mode. */
    method ChangeDisplayMode(mode: string)
      modifies this
      ensures isDoneDisplay == mode
      ensures lists == old(lists) && selectListId == old(selectListId) && tasks == old(tasks)
      ensures errorMessage == old(errorMessage) && listsPending == old(listsPending)
      ensures tasksPending == old(tasksPending)
    {
      isDoneDisplay := mode;
    }

    /** The tasks the page shows for its current state. */
    function Shown(): (r: seq<Task>)
      reads this
      ensures forall t :: t in r <==>
        tasks.Some? && t in tasks.value && t.done == (isDoneDisplay == DoneMode)
    {
      VisibleTasks(tasks, isDoneDisplay)
    }
  }

  /** Two lists arrive: the first is selected and its tasks are fetched; the arrows wrap. */
  method FirstListScenario() {
    var home := new HomePage();
    var lists := [TodoList("1", "A"), TodoList("2", "B")];
    home.CompleteListsFetch(Ok(lists));
    assert home.selectListId == Some("1");
    assert home.tasksPending == [Some("1")];
    var prevented := home.HandleKeyDown(ArrowDown);
    assert home.selectListId == Some("2");
    prevented := home.HandleKeyDown(ArrowDown);
    assert home.selectListId == Some("1");
    prevented := home.HandleKeyDown(ArrowUp);
    assert home.selectListId == Some("2");
    prevented := home.HandleKeyDown(Enter);
    assert home.tasksPending == [Some("1"), Some("2")];
  }
}
