/** The brain-dump board of `src/Components/BrainDump.jsx`: loose thoughts
    are collected as pending items, sorted one at a time into the four
    quadrants of an Eisenhower matrix, and the first three quadrants are
    turned into task requests of falling priority. */
module BrainDump {
  import opened Wrappers
  import opened Text

  /** One collected thought: `{ id, text, status }`. */
  datatype DumpItem = DumpItem(id: int, text: string, status: string)

  /** One entry of the sorting conversation. */
  datatype ChatMessage = ChatMessage(role: string, content: string)

  /** The matrix keys `do_now`, `schedule`, `delegate` and `delete`. */
  datatype Quadrant = DoNow | Schedule | Delegate | Delete

  /** The four quadrant lists. */
  datatype Matrix = Matrix(doNow: seq<DumpItem>, schedule: seq<DumpItem>, delegate: seq<DumpItem>, delete: seq<DumpItem>)

  /** `{ do_now: [], schedule: [], delegate: [], delete: [] }`. */
  const EmptyMatrix := Matrix([], [], [], [])

  /** `matrix[category]`. */
  function Get(m: Matrix, q: Quadrant): seq<DumpItem>
  {
    match q
    case DoNow => m.doNow
    case Schedule => m.schedule
    case Delegate => m.delegate
    case Delete => m.delete
  }

  /** `{ ...prev, [category]: [...prev[category], node] }`: the item goes to
      the end of the chosen quadrant and no other quadrant changes. */
  function File(m: Matrix, q: Quadrant, x: DumpItem): (r: Matrix)
    ensures Get(r, q) == Get(m, q) + [x]
    ensures forall o: Quadrant :: o != q ==> Get(r, o) == Get(m, o)
  {
    match q
    case DoNow => m.(doNow := m.doNow + [x])
    case Schedule => m.(schedule := m.schedule + [x])
    case Delegate => m.(delegate := m.delegate + [x])
    case Delete => m.(delete := m.delete + [x])
  }

  /** Every item in the matrix, as often as it occurs. */
  function Items(m: Matrix): multiset<DumpItem>
  {
    multiset(m.doNow) + multiset(m.schedule) + multiset(m.delegate) + multiset(m.delete)
  }

  /** Filing adds exactly the filed item to the matrix. */
  lemma FileAddsItem(m: Matrix, q: Quadrant, x: DumpItem)
    ensures Items(File(m, q, x)) == Items(m) + multiset{x}
  {
    match q
    case DoNow => assert multiset(m.doNow + [x]) == multiset(m.doNow) + multiset{x};
    case Schedule => assert multiset(m.schedule + [x]) == multiset(m.schedule) + multiset{x};
    case Delegate => assert multiset(m.delegate + [x]) == multiset(m.delegate) + multiset{x};
    case Delete => assert multiset(m.delete + [x]) == multiset(m.delete) + multiset{x};
  }

  /** A sorting session that files `items` in order, the `k`-th into
      quadrant `choices[k]`. */
  function FileAll(m: Matrix, items: seq<DumpItem>, choices: seq<Quadrant>): Matrix
    requires |choices| == |items|
    decreases |items|
  {
    if items == [] then m else FileAll(File(m, choices[0], items[0]), items[1..], choices[1..])
  }

  /** Whatever the choices, a session that sorts every pending item leaves
      the matrix holding what it held plus exactly those items. */
  lemma {:induction false} FileAllItems(m: Matrix, items: seq<DumpItem>, choices: seq<Quadrant>)
    requires |choices| == |items|
    ensures Items(FileAll(m, items, choices)) == Items(m) + multiset(items)
    decreases |items|
  {
    if items != [] {
      FileAddsItem(m, choices[0], items[0]);
      FileAllItems(File(m, choices[0], items[0]), items[1..], choices[1..]);
      assert items == [items[0]] + items[1..];
    }
  }

  /** The message that opens the conversation about the first item. */
  function InitialPrompt(text: string): string
  {
    "I need to sort this task: \"" + text + "\". Help me decide if it's important and urgent."
  }

  /** The message that opens the conversation about each following item. */
  function NextPrompt(text: string): string
  {
    "Okay, next task: \"" + text + "\". Help me sort it."
  }

  /** The `priority` field of a task creation request. */
  datatype Priority = High | Medium | Low

  /** The body of one `POST /tasks/`; `due` is absent for delegated items. */
  datatype TaskRequest = TaskRequest(title: string, description: string, priority: Priority, due: Option<int>)

  /** The request `createTasks` sends for an item of quadrant `q`: the item's
      text as title, a description naming the quadrant, and a priority and
      due date fixed by the quadrant; `now` and `tomorrow` are the clock
      readings it uses. */
  function Request(x: DumpItem, q: Quadrant, now: int, tomorrow: int): TaskRequest
    requires q != Delete
  {
    match q
    case DoNow => TaskRequest(x.text, "From Brain Dump (Do Now)", High, Some(now))
    case Schedule => TaskRequest(x.text, "From Brain Dump (Schedule)", Medium, Some(tomorrow))
    case Delegate => TaskRequest(x.text, "From Brain Dump (Delegate)", Low, None)
  }

  /** One `for…of` loop of `createTasks`. */
  function QuadrantRequests(items: seq<DumpItem>, q: Quadrant, now: int, tomorrow: int): seq<TaskRequest>
    requires q != Delete
  {
    seq(|items|, i requires 0 <= i < |items| => Request(items[i], q, now, tomorrow))
  }

  /** Every request `createTasks` sends, in order: the `do_now` items, then
      `schedule`, then `delegate`. */
  function Requests(m: Matrix, now: int, tomorrow: int): seq<TaskRequest>
  {
    QuadrantRequests(m.doNow, DoNow, now, tomorrow)
    + QuadrantRequests(m.schedule, Schedule, now, tomorrow)
    + QuadrantRequests(m.delegate, Delegate, now, tomorrow)
  }

  /** Where each item's request sits in the list. */
  lemma RequestsIndex(m: Matrix, now: int, tomorrow: int)
    ensures |Requests(m, now, tomorrow)| == |m.doNow| + |m.schedule| + |m.delegate|
    ensures forall i :: 0 <= i < |m.doNow| ==> Requests(m, now, tomorrow)[i] == Request(m.doNow[i], DoNow, now, tomorrow)
    ensures forall i :: 0 <= i < |m.schedule| ==>
      Requests(m, now, tomorrow)[|m.doNow| + i] == Request(m.schedule[i], Schedule, now, tomorrow)
    ensures forall i :: 0 <= i < |m.delegate| ==>
      Requests(m, now, tomorrow)[|m.doNow| + |m.schedule| + i] == Request(m.delegate[i], Delegate, now, tomorrow)
  {
    var a := QuadrantRequests(m.doNow, DoNow, now, tomorrow);
    var b := QuadrantRequests(m.schedule, Schedule, now, tomorrow);
    var c := QuadrantRequests(m.delegate, Delegate, now, tomorrow);
    var all := Requests(m, now, tomorrow);
    assert all == a + b + c;
    forall i | 0 <= i < |m.schedule| ensures all[|m.doNow| + i] == b[i] {
      assert (a + b + c)[|a| + i] == b[i];
    }
    forall i | 0 <= i < |m.delegate| ensures all[|m.doNow| + |m.schedule| + i] == c[i] {
      assert (a + b + c)[|a| + |b| + i] == c[i];
    }
  }

  /** One request per item of the first three quadrants, in quadrant order:
      `do_now` items become High tasks due now, `schedule` items Medium tasks
      due tomorrow, `delegate` items Low tasks without a due date; the
      `delete` quadrant creates nothing. */
  lemma RequestsSpec(m: Matrix, now: int, tomorrow: int, x: DumpItem)
    ensures |Requests(m, now, tomorrow)| == |m.doNow| + |m.schedule| + |m.delegate|
    ensures forall i :: 0 <= i < |m.doNow| ==>
      var r := Requests(m, now, tomorrow)[i];
      r.title == m.doNow[i].text && r.priority == High && r.due == Some(now)
    ensures forall i :: 0 <= i < |m.schedule| ==>
      var r := Requests(m, now, tomorrow)[|m.doNow| + i];
      r.title == m.schedule[i].text && r.priority == Medium && r.due == Some(tomorrow)
    ensures forall i :: 0 <= i < |m.delegate| ==>
      var r := Requests(m, now, tomorrow)[|m.doNow| + |m.schedule| + i];
      r.title == m.delegate[i].text && r.priority == Low && r.due == None
    ensures Requests(File(m, Delete, x), now, tomorrow) == Requests(m, now, tomorrow)
  {
    RequestsIndex(m, now, tomorrow);
    assert File(m, Delete, x).(delete := m.delete) == m;
  }

  /** One `for…of` loop of `createTasks`, after the requests `before`:
      a request per item in order, unless request number `failing` is
      rejected first. `ok` says whether the loop ran to its end. */
  method PostEach(items: seq<DumpItem>, q: Quadrant, now: int, tomorrow: int, failing: Option<nat>,
                  before: seq<TaskRequest>) returns (sent: seq<TaskRequest>, ok: bool)
    requires q != Delete
    requires failing.None? || failing.value >= |before|
    ensures var want := before + QuadrantRequests(items, q, now, tomorrow);
            (ok <==> failing.None? || failing.value >= |want|)
            && (ok ==> sent == want)
            && (!ok ==> sent == want[..failing.value])
  {
    ghost var want := before + QuadrantRequests(items, q, now, tomorrow);
    sent := before;
    for i := 0 to |items|
      invariant sent == want[..|before| + i]
      invariant failing.None? || failing.value >= |before| + i
    {
      if failing == Some(|sent|) {
        return sent, false;
      }
      sent := sent + [Request(items[i], q, now, tomorrow)];
    }
    assert want[..|want|] == want;
    ok := true;
  }

  /** The component's state. */
  class Board {
    var nodes: seq<DumpItem>
    var inputValue: string
    var sortingMode: bool
    var currentNodeIndex: nat
    var chatHistory: seq<ChatMessage>
    var matrix: Matrix

    /** While sorting, the index points at a pending item. */
    ghost predicate Valid()
      reads this
    {
      sortingMode ==> currentNodeIndex < |nodes|
    }

    constructor ()
      ensures Valid() && nodes == [] && inputValue == "" && !sortingMode && currentNodeIndex == 0
      ensures chatHistory == [] && matrix == EmptyMatrix
    {
      nodes := [];
      inputValue := "";
      sortingMode := false;
      currentNodeIndex := 0;
      chatHistory := [];
      matrix := EmptyMatrix;
    }

    /** `addNode()`: a blank input adds nothing; otherwise the input, as
        typed and not trimmed, is appended as a pending item with id `stamp`
        and the input is cleared. */
    method AddNode(stamp: int)
      requires Valid()
      modifies this
      ensures Valid()
      ensures IsBlank(old(inputValue)) ==> unchanged(this)
      ensures !IsBlank(old(inputValue)) ==>
        nodes == old(nodes) + [DumpItem(stamp, old(inputValue), "pending")] && inputValue == ""
        && sortingMode == old(sortingMode) && currentNodeIndex == old(currentNodeIndex)
        && chatHistory == old(chatHistory) && matrix == old(matrix)
    {
      if IsBlank(inputValue) {
        return;
      }
      nodes := nodes + [DumpItem(stamp, inputValue, "pending")];
      inputValue := "";
    }

    /** `handleKeyDown`: Enter without Shift adds the input. */
    method KeyDown(key: string, shift: bool, stamp: int)
      requires Valid()
      modifies this
      ensures Valid()
      ensures key != "Enter" || shift || IsBlank(old(inputValue)) ==> unchanged(this)
      ensures key == "Enter" && !shift && !IsBlank(old(inputValue)) ==>
        nodes == old(nodes) + [DumpItem(stamp, old(inputValue), "pending")] && inputValue == ""
        && sortingMode == old(sortingMode) && currentNodeIndex == old(currentNodeIndex)
        && chatHistory == old(chatHistory) && matrix == old(matrix)
    {
      if key == "Enter" && !shift {
        AddNode(stamp);
      }
    }

    /** A final transcript outside sorting mode is added to the input,
        separated by one space from what is already there. */
    method Dictate(transcript: string)
      requires Valid() && !sortingMode
      modifies this
      ensures Valid()
      ensures inputValue == old(inputValue) + (if old(inputValue) != "" then " " else "") + transcript
      ensures nodes == old(nodes) && sortingMode == old(sortingMode) && matrix == old(matrix)
      ensures currentNodeIndex == old(currentNodeIndex) && chatHistory == old(chatHistory)
    {
      inputValue := inputValue + (if inputValue != "" then " " else "") + transcript;
    }

    /** `startSorting()`: nothing without pending items; otherwise sorting
        starts at the first item with an empty conversation, and the prompt
        about that item is returned for the assistant. */
    method StartSorting() returns (prompt: Option<string>)
      requires Valid()
      modifies this
      ensures Valid()
      ensures old(nodes) == [] ==> prompt == None && unchanged(this)
      ensures old(nodes) != [] ==>
        sortingMode && currentNodeIndex == 0 && chatHistory == [] && nodes == old(nodes)
        && matrix == old(matrix) && inputValue == old(inputValue)
        && prompt == Some(InitialPrompt(nodes[0].text))
    {
      if |nodes| == 0 {
        return None;
      }
      sortingMode := true;
      currentNodeIndex := 0;
      chatHistory := [];
      prompt := Some(InitialPrompt(nodes[0].text));
    }

    /** The Stop button. */
    method StopSorting()
      requires Valid()
      modifies this
      ensures Valid() && !sortingMode
      ensures nodes == old(nodes) && matrix == old(matrix) && currentNodeIndex == old(currentNodeIndex)
      ensures chatHistory == old(chatHistory) && inputValue == old(inputValue)
    {
      sortingMode := false;
    }

    /** `categorizeNode(nodes[currentNodeIndex], q)`, as `manualCategorize`
        calls it: the current item goes to quadrant `q`. If another item
        follows, it becomes current, the conversation is cleared and the
        prompt about it is returned; otherwise sorting ends and the pending
        list is emptied. Only the current item is added to the matrix. */
    method Categorize(q: Quadrant) returns (prompt: Option<string>)
      requires Valid() && sortingMode
      modifies this
      ensures Valid()
      ensures matrix == File(old(matrix), q, old(nodes)[old(currentNodeIndex)])
      ensures old(currentNodeIndex) + 1 < old(|nodes|) ==>
        sortingMode && currentNodeIndex == old(currentNodeIndex) + 1 && chatHistory == [] && nodes == old(nodes)
        && prompt == Some(NextPrompt(nodes[currentNodeIndex].text))
      ensures old(currentNodeIndex) + 1 >= old(|nodes|) ==>
        !sortingMode && nodes == [] && prompt == None && currentNodeIndex == old(currentNodeIndex)
        && chatHistory == old(chatHistory)
      ensures Items(matrix) == Items(old(matrix)) + multiset{old(nodes)[old(currentNodeIndex)]}
      ensures inputValue == old(inputValue)
    {
      var node := nodes[currentNodeIndex];
      FileAddsItem(matrix, q, node);
      matrix := File(matrix, q, node);
      var nextIndex := currentNodeIndex + 1;
      if nextIndex < |nodes| {
        currentNodeIndex := nextIndex;
        chatHistory := [];
        prompt := Some(NextPrompt(nodes[nextIndex].text));
      } else {
        sortingMode := false;
        nodes := [];
        prompt := None;
      }
    }

    /** `createTasks()`: one request per item of `do_now`, `schedule` and
        `delegate`, in that order. `failing` is the number of the request
        the server rejects, if any: the requests before it are sent and the
        matrix stays; when every request succeeds all four quadrants are
        emptied. */
    method CreateTasks(now: int, tomorrow: int, failing: Option<nat>) returns (sent: seq<TaskRequest>)
      requires Valid()
      modifies this
      ensures Valid()
      ensures var all := Requests(old(matrix), now, tomorrow);
              if failing.Some? && failing.value < |all| then sent == all[..failing.value] && matrix == old(matrix)
              else sent == all && matrix == EmptyMatrix
      ensures nodes == old(nodes) && inputValue == old(inputValue) && sortingMode == old(sortingMode)
      ensures currentNodeIndex == old(currentNodeIndex) && chatHistory == old(chatHistory)
    {
      var m := matrix;
      ghost var a := QuadrantRequests(m.doNow, DoNow, now, tomorrow);
      ghost var b := QuadrantRequests(m.schedule, Schedule, now, tomorrow);
      ghost var c := QuadrantRequests(m.delegate, Delegate, now, tomorrow);
      assert Requests(m, now, tomorrow) == a + b + c;
      var ok: bool;
      sent, ok := PostEach(m.doNow, DoNow, now, tomorrow, failing, []);
      assert [] + a == a;
      if !ok {
        assert (a + b + c)[..failing.value] == a[..failing.value];
        return;
      }
      sent, ok := PostEach(m.schedule, Schedule, now, tomorrow, failing, sent);
      if !ok {
        assert (a + b + c)[..failing.value] == (a + b)[..failing.value];
        return;
      }
      sent, ok := PostEach(m.delegate, Delegate, now, tomorrow, failing, sent);
      if !ok {
        return;
      }
      matrix := EmptyMatrix;
    }
  }
}
