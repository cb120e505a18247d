/**
 * The prompt-queue controller of script.user.js: the in-memory queue, the
 * single-flight dispatch lock, the draft record, and the dispatch attempt
 * trySendNext.
 *
 * trySendNext is an async function; each of its `await`s is a boundary
 * between two step methods of the Controller class, and the value of
 * `phase` says where the attempt is suspended. Between any two steps the
 * environment may act: the agent turns busy or idle (SetBusy), the user
 * types (UserTypes) or presses a key (Keydown), clicks Clear, Remove or
 * Edit, or a timer or the mutation observer calls TrySendNext again.
 */
module Dispatcher {
  import opened Text
  import opened Editor
  import opened Store
  import opened Keys

  /** The pendingDraft record: the id of the draft item, the lines that were
      captured, and whether they are still to be put back in the editor. */
  datatype Draft = Draft(id: nat, lines: seq<string>, restore: bool)

  /** Where the dispatch attempt is suspended. */
  datatype Phase =
    | Idle          // no attempt in flight
    | BeforeSubmit  // item written into the editor; at `await Promise.resolve()`
    | AwaitingBusy  // submitted; in `waitFor(() => isSending(), 2000, 50)`
    | AwaitingIdle  // busy observed, draft restored; in `waitFor(() => !isSending(), 120000, 100)`

  /** Every draft item in the queue is the one the draft record tracks, with
      the captured lines, and no other item shares its id. */
  predicate DraftsTracked(q: seq<Item>, pd: Option<Draft>) {
    && (forall k | 0 <= k < |q| && q[k].isDraft ::
          pd.Some? && q[k].id == pd.value.id && q[k].lines == pd.value.lines)
    && (pd.Some? ==> UniqueId(q, pd.value.id))
  }

  lemma DraftsTrackedRemoveAt(q: seq<Item>, pd: Option<Draft>, pd': Option<Draft>, i: nat)
    requires DraftsTracked(q, pd) && i < |q|
    requires pd.Some? <==> pd'.Some?
    requires pd.Some? ==> pd'.value.id == pd.value.id && pd'.value.lines == pd.value.lines
    ensures DraftsTracked(RemoveAt(q, i), pd')
  {
    RemoveAtSpec(q, i);
    var r := RemoveAt(q, i);
    forall k | 0 <= k < |r| && r[k].isDraft
      ensures pd'.Some? && r[k].id == pd'.value.id && r[k].lines == pd'.value.lines
    {
      if k < i { assert r[k] == q[k]; } else { assert r[k] == q[k + 1]; }
    }
    if pd'.Some? {
      forall j, k | 0 <= j < k < |r| ensures r[j].id != pd'.value.id || r[k].id != pd'.value.id {
        var j' := if j < i then j else j + 1;
        var k' := if k < i then k else k + 1;
        assert r[j] == q[j'] && r[k] == q[k'] && j' < k';
      }
    }
  }

  lemma DraftsTrackedRemoveId(q: seq<Item>, d: Draft)
    requires DraftsTracked(q, Some(d))
    ensures NoDrafts(RemoveId(q, d.id)) && DraftsTracked(RemoveId(q, d.id), None)
  {
    RemoveIdSpec(q, d.id);
    var r := RemoveId(q, d.id);
    forall k | 0 <= k < |r| ensures !r[k].isDraft {
      assert r[k] in q by {
        if r != q {
          var i :| 0 <= i < |q| && q[i].id == d.id && r == RemoveAt(q, i);
          RemoveAtSpec(q, i);
          if k < i { assert r[k] == q[k]; } else { assert r[k] == q[k + 1]; }
        }
      }
    }
  }

  /** Taking the front of a draft-free queue, with or without a fresh draft
      item appended at the back, leaves the draft bookkeeping consistent. */
  lemma TakeFrontTracked(q: seq<Item>, next: nat, lines: seq<string>, now: int)
    requires |q| > 0 && NoDrafts(q)
    requires forall k | 0 <= k < |q| :: q[k].id < next
    ensures DraftsTracked(q[1..], None)
    ensures DraftsTracked(q[1..] + [Item(next, lines, now, true)], Some(Draft(next, lines, true)))
  {
    var r := q[1..];
    assert forall k | 0 <= k < |r| :: r[k] == q[k + 1];
    var r' := r + [Item(next, lines, now, true)];
    forall j, k | 0 <= j < k < |r'| ensures r'[j].id != next || r'[k].id != next {
      assert r'[j] == r[j];
    }
  }

  class Controller {
    var queue: seq<Item>
    var dispatchLock: bool
    var pendingDraft: Option<Draft>
    var phase: Phase
    /** The editor's contents, and whether getEditor() finds it. */
    var editor: Surface
    var editorPresent: bool
    /** isSending(): the agent's stop button is shown. */
    var busy: bool
    /** The next fresh item id. */
    var nextId: nat
    /** What the editor held each time the controller submitted it. */
    ghost var sent: seq<seq<string>>

    ghost predicate Valid()
      reads this
    {
      && (forall k | 0 <= k < |queue| :: queue[k].id < nextId)
      && (pendingDraft.Some? ==> pendingDraft.value.id < nextId)
      && dispatchLock == (phase != Idle)
      && (pendingDraft.Some? ==> phase == BeforeSubmit || phase == AwaitingBusy)
      && DraftsTracked(queue, pendingDraft)
    }

    /** The script's start-up: loadQueue(), with no attempt in flight. */
    constructor (stored: Stored, editor: Surface, editorPresent: bool, busy: bool)
      ensures Valid()
      ensures queue == LoadQueue(stored) && NoDrafts(queue)
      ensures !dispatchLock && phase == Idle && pendingDraft == None && sent == []
      ensures this.editor == editor && this.editorPresent == editorPresent && this.busy == busy
    {
      queue := LoadQueue(stored);
      dispatchLock := false;
      pendingDraft := None;
      phase := Idle;
      this.editor := editor;
      this.editorPresent := editorPresent;
      this.busy := busy;
      nextId := IdBound(LoadQueue(stored));
      sent := [];
      LoadQueueSpec(stored);
    }

    /** enqueue(lines, opts): appends one item with a fresh id. */
    method Enqueue(lines: seq<string>, isDraft: bool, now: int) returns (item: Item)
      modifies this`queue, this`nextId
      ensures item == Item(old(nextId), lines, now, isDraft)
      ensures queue == old(queue) + [item] && nextId == old(nextId) + 1
    {
      item := Item(nextId, lines, now, isDraft);
      queue := queue + [item];
      nextId := nextId + 1;
    }

    /** dequeue(): `queue.shift()`, which gives undefined on an empty queue. */
    method Dequeue() returns (item: Option<Item>)
      modifies this`queue
      ensures old(queue) == [] ==> item == None && queue == []
      ensures old(queue) != [] ==> item == Some(old(queue)[0]) && queue == old(queue)[1..]
    {
      if |queue| == 0 {
        item := None;
      } else {
        item := Some(queue[0]);
        queue := queue[1..];
      }
    }

    /** removeQueueItemAt(index), which also serves the Remove button. */
    method RemoveQueueItemAt(index: int) returns (removed: Option<Item>)
      modifies this`queue, this`pendingDraft
      ensures !(0 <= index < |old(queue)|) ==>
        removed == None && queue == old(queue) && pendingDraft == old(pendingDraft)
      ensures 0 <= index < |old(queue)| ==>
        && removed == Some(old(queue)[index])
        && queue == RemoveAt(old(queue), index)
        && pendingDraft ==
             if old(pendingDraft).Some? && old(queue)[index].id == old(pendingDraft).value.id
             then Some(old(pendingDraft).value.(restore := false))
             else old(pendingDraft)
      ensures old(Valid()) ==> Valid()
    {
      if index < 0 || index >= |queue| {
        return None;
      }
      var item := queue[index];
      ghost var q0, pd0 := queue, pendingDraft;
      queue := RemoveAt(queue, index);
      if pendingDraft.Some? && item.id == pendingDraft.value.id {
        pendingDraft := Some(pendingDraft.value.(restore := false));
      }
      removed := Some(item);
      if old(Valid()) {
        DraftsTrackedRemoveAt(q0, pd0, pendingDraft, index);
        RemoveAtSpec(q0, index);
      }
    }

    /** removeQueueItemById(id) */
    method RemoveQueueItemById(id: nat)
      modifies this`queue, this`pendingDraft
      ensures queue == RemoveId(old(queue), id)
      ensures pendingDraft ==
        if old(pendingDraft).Some? && old(pendingDraft).value.id == id && FindId(old(queue), id).Some?
        then Some(old(pendingDraft).value.(restore := false))
        else old(pendingDraft)
    {
      var idx := FindId(queue, id);
      if idx.None? {
        return;
      }
      var _ := RemoveQueueItemAt(idx.value);
    }

    /** restorePendingDraft(editor): forgets the draft record, puts its lines
        back in the editor unless restoring was cancelled, and removes the
        draft item from the queue. */
    method RestorePendingDraft()
      modifies this`queue, this`pendingDraft, this`editor
      ensures pendingDraft == None
      ensures old(pendingDraft).None? ==> queue == old(queue) && editor == old(editor)
      ensures old(pendingDraft).Some? ==>
        && queue == RemoveId(old(queue), old(pendingDraft).value.id)
        && editor == if old(pendingDraft).value.restore then Written(old(pendingDraft).value.lines) else old(editor)
    {
      if pendingDraft.None? {
        return;
      }
      var d := pendingDraft.value;
      pendingDraft := None;
      if d.restore {
        editor := Written(d.lines);
      }
      RemoveQueueItemById(d.id);
    }

    /** trySendNext, up to its first `await`. It does nothing while an attempt
        holds the lock, when the queue is empty, while the agent is busy, or
        when there is no editor. Otherwise it takes the lock, parks non-blank
        editor content as a draft item at the back of the queue, takes the
        front item (never the draft) and writes it into the editor. */
    method TrySendNext(now: int)
      requires Valid()
      modifies this`dispatchLock, this`queue, this`nextId, this`pendingDraft, this`editor, this`phase
      ensures Valid()
      ensures old(dispatchLock || |queue| == 0 || busy || !editorPresent) ==>
        && queue == old(queue) && dispatchLock == old(dispatchLock) && phase == old(phase)
        && pendingDraft == old(pendingDraft) && editor == old(editor) && nextId == old(nextId)
      ensures !old(dispatchLock || |queue| == 0 || busy || !editorPresent) ==>
        var before := ReadLines(old(editor));
        var captured := HasContent(before);
        && dispatchLock && phase == BeforeSubmit
        && !old(queue)[0].isDraft
        && editor == Written(old(queue)[0].lines)
        && queue == old(queue)[1..] + (if captured then [Item(old(nextId), before, now, true)] else [])
        && pendingDraft == (if captured then Some(Draft(old(nextId), before, true)) else None)
        && nextId == old(nextId) + (if captured then 1 else 0)
    {
      if dispatchLock { return; }
      if |queue| == 0 { return; }
      if busy { return; }
      if !editorPresent { return; }

      dispatchLock := true;
      phase := BeforeSubmit;
      ghost var q0 := queue;
      assert NoDrafts(q0);

      var currentLines := ReadLines(editor);
      if pendingDraft.None? && HasContent(currentLines) {
        var draftItem := Enqueue(currentLines, true, now);
        pendingDraft := Some(Draft(draftItem.id, currentLines, true));
      }

      var item := Dequeue();
      if item.None? {
        // The `!item` abort: the queue was non-empty on entry and nothing
        // could run in between, so this branch is dead.
        assert false;
      }
      editor := Written(item.value.lines);

      TakeFrontTracked(q0, old(nextId), currentLines, now);
      assert q0[0] in q0;
    }

    /** After `await Promise.resolve()`: the send button is clicked, or Enter
        is simulated on the editor; either way the editor is submitted. */
    method Submit()
      requires Valid() && phase == BeforeSubmit
      modifies this`phase, this`sent
      ensures Valid() && phase == AwaitingBusy
      ensures sent == old(sent) + [ReadLines(editor)]
    {
      sent := sent + [ReadLines(editor)];
      phase := AwaitingBusy;
    }

    /** After the wait for busy. Either way the draft is restored. If the
        agent is not busy, the submission counts as failed: the lock is
        released, the taken item is not put back, and a retry is scheduled
        (an outside TrySendNext call). If it is busy, the attempt goes on
        to wait for idle. */
    method AfterBusyWait() returns (observed: bool)
      requires Valid() && phase == AwaitingBusy
      modifies this`queue, this`pendingDraft, this`editor, this`dispatchLock, this`phase
      ensures Valid()
      ensures observed == busy
      ensures pendingDraft == None && NoDrafts(queue)
      ensures old(pendingDraft).None? ==> queue == old(queue) && editor == old(editor)
      ensures old(pendingDraft).Some? ==>
        && queue == RemoveId(old(queue), old(pendingDraft).value.id)
        && editor == if old(pendingDraft).value.restore then Written(old(pendingDraft).value.lines) else old(editor)
      ensures observed ==> dispatchLock && phase == AwaitingIdle
      ensures !observed ==> !dispatchLock && phase == Idle
    {
      ghost var q0, pd0 := queue, pendingDraft;
      observed := busy;
      RestorePendingDraft();
      if pd0.Some? {
        DraftsTrackedRemoveId(q0, pd0.value);
        RemoveIdSpec(q0, pd0.value.id);
      }
      if !observed {
        dispatchLock := false;
        phase := Idle;
        return;
      }
      phase := AwaitingIdle;
    }

    /** After the wait for idle (which ends on idle or on its time-out): the
        lock is released and another attempt is scheduled. */
    method AfterIdleWait()
      requires Valid() && phase == AwaitingIdle
      modifies this`dispatchLock, this`phase
      ensures Valid() && !dispatchLock && phase == Idle
    {
      dispatchLock := false;
      phase := Idle;
    }

    /** keydownHandler(e): a plain Enter in the editor while the agent is busy
        is taken from the page; the editor's lines are queued unless they are
        all blank, and the editor is then reset to one empty line. */
    method Keydown(e: KeyEvent, now: int) returns (prevented: bool)
      requires Valid()
      modifies this`queue, this`nextId, this`editor
      ensures Valid()
      ensures prevented <==> PlainEnter(e) && editorPresent && e.inEditor && busy
      ensures !(prevented && HasContent(ReadLines(old(editor)))) ==>
        queue == old(queue) && editor == old(editor) && nextId == old(nextId)
      ensures prevented && HasContent(ReadLines(old(editor))) ==>
        && queue == old(queue) + [Item(old(nextId), ReadLines(old(editor)), now, false)]
        && editor == Written([""])
        && nextId == old(nextId) + 1
    {
      if !PlainEnter(e) { return false; }
      if !editorPresent { return false; }
      if !e.inEditor { return false; }
      if !busy { return false; }
      prevented := true;

      var lines := ReadLines(editor);
      if !HasContent(lines) { return; }

      var _ := Enqueue(lines, false, now);
      editor := Written([""]);
    }

    /** The Clear button: empties the queue and cancels any pending restore,
        leaving the editor as it is. */
    method Clear()
      requires Valid()
      modifies this`queue, this`pendingDraft
      ensures Valid() && queue == []
      ensures pendingDraft == if old(pendingDraft).Some? then Some(old(pendingDraft).value.(restore := false)) else None
    {
      queue := [];
      if pendingDraft.Some? {
        pendingDraft := Some(pendingDraft.value.(restore := false));
      }
    }

    /** The Edit button of row `idx`: removes that item and loads its lines
        into the editor. */
    method Edit(idx: int)
      requires Valid()
      modifies this`queue, this`pendingDraft, this`editor
      ensures Valid()
      ensures !(0 <= idx < |old(queue)|) ==>
        queue == old(queue) && pendingDraft == old(pendingDraft) && editor == old(editor)
      ensures 0 <= idx < |old(queue)| ==>
        && queue == RemoveAt(old(queue), idx)
        && editor == (if editorPresent then Written(old(queue)[idx].lines) else old(editor))
        && pendingDraft ==
             if old(pendingDraft).Some? && old(queue)[idx].id == old(pendingDraft).value.id
             then Some(old(pendingDraft).value.(restore := false))
             else old(pendingDraft)
    {
      var removed := RemoveQueueItemAt(idx);
      if removed.None? {
        return;
      }
      if editorPresent {
        editor := Written(removed.value.lines);
      }
    }

    /** The agent starts or finishes a turn. */
    method SetBusy(b: bool)
      requires Valid()
      modifies this`busy
      ensures Valid() && busy == b
    {
      busy := b;
    }

    /** The user edits the editor's contents. */
    method UserTypes(s: Surface)
      requires Valid()
      modifies this`editor
      ensures Valid() && editor == s
    {
      editor := s;
    }

    /** The page adds or removes the editor element. */
    method SetEditorPresent(b: bool)
      requires Valid()
      modifies this`editorPresent
      ensures Valid() && editorPresent == b
    {
      editorPresent := b;
    }
    /** One dispatch attempt from start to end with no user action in
        between: the agent answers the submission (turns busy, then idle
        again) or not at all. The front item is delivered and leaves the
        queue either way; it is not put back when the agent does not
        answer. Whatever the user had typed is in the editor again
        afterwards, less any no-break spaces. */
    method UndisturbedAttempt(now: int, agentAnswers: bool)
      requires Valid() && phase == Idle && !busy && editorPresent && |queue| > 0
      modifies this`dispatchLock, this`queue, this`nextId, this`pendingDraft, this`editor, this`phase, this`sent, this`busy
      ensures Valid() && !dispatchLock && phase == Idle && !busy
      ensures pendingDraft == None && NoDrafts(queue)
      ensures queue == old(queue)[1..]
      ensures sent == old(sent) + [ReadLines(Written(old(queue)[0].lines))]
      ensures HasContent(ReadLines(old(editor))) ==> editor == Written(ReadLines(old(editor)))
      ensures !HasContent(ReadLines(old(editor))) ==> editor == Written(old(queue)[0].lines)
      ensures HasContent(ReadLines(old(editor))) && ParsesUnchanged(ReadLines(old(editor))) ==>
        ReadLines(editor) == StripEach(ReadLines(old(editor)))
      ensures HasContent(ReadLines(old(editor))) && ParsesUnchanged(ReadLines(old(editor)))
              && old(editor).Paragraphs? && |old(editor).texts| > 0 ==>
        ReadLines(editor) == ReadLines(old(editor))
    {
      var before := ReadLines(editor);
      ghost var q0, id0, e0 := queue, nextId, editor;
      ghost var item := Item(id0, before, now, true);
      TrySendNext(now);
      assert queue == q0[1..] + (if HasContent(before) then [item] else []);
      assert pendingDraft == (if HasContent(before) then Some(Draft(id0, before, true)) else None);
      assert editor == Written(q0[0].lines);
      Submit();
      assert sent == old(sent) + [ReadLines(Written(q0[0].lines))];
      SetBusy(agentAnswers);
      var observed := AfterBusyWait();
      if observed {
        SetBusy(false);
        AfterIdleWait();
      }
      if HasContent(before) {
        RemoveIdLast(q0[1..], item);
        assert queue == q0[1..];
        assert editor == Written(before);
        ReadLinesShape(e0);
        ReadWritten(before);
      } else {
        assert queue == q0[1..];
      }
    }

    /** trySendNext up to the wait for busy, on an idle controller with
        non-blank lines in the editor: the lines are parked as a draft and
        the front item is submitted. */
    method CaptureAndSubmit(now: int)
      requires Valid() && phase == Idle && !busy && editorPresent && |queue| >= 1
      requires HasContent(ReadLines(editor))
      modifies this`dispatchLock, this`queue, this`nextId, this`pendingDraft, this`editor, this`phase, this`sent
      ensures Valid() && phase == AwaitingBusy
      ensures queue == old(queue)[1..] + [Item(old(nextId), ReadLines(old(editor)), now, true)]
      ensures pendingDraft == Some(Draft(old(nextId), ReadLines(old(editor)), true))
      ensures forall k | 0 <= k < |old(queue)| :: old(queue)[k].id < old(nextId)
      ensures sent == old(sent) + [ReadLines(Written(old(queue)[0].lines))]
    {
      TrySendNext(now);
      Submit();
    }

    /** The first half of AttemptWithEdit: the attempt has captured a draft
        and submitted the front item, and Edit has taken the next item out
        of the queue and into the editor. */
    method EditWhileAwaitingBusy(now: int)
      requires Valid() && phase == Idle && !busy && editorPresent && |queue| >= 2
      requires HasContent(ReadLines(editor))
      modifies this`dispatchLock, this`queue, this`nextId, this`pendingDraft, this`editor, this`phase, this`sent
      ensures Valid() && phase == AwaitingBusy
      ensures queue == old(queue)[2..] + [Item(old(nextId), ReadLines(old(editor)), now, true)]
      ensures pendingDraft == Some(Draft(old(nextId), ReadLines(old(editor)), true))
      ensures editor == Written(old(queue)[1].lines)
      ensures sent == old(sent) + [ReadLines(Written(old(queue)[0].lines))]
    {
      ghost var q0, id0, before := queue, nextId, ReadLines(editor);
      ghost var parked := Item(id0, before, now, true);
      CaptureAndSubmit(now);
      assert queue == q0[1..] + [parked] && queue[0] == q0[1] && q0[1].id < id0;
      Edit(0);
      assert queue == RemoveAt(q0[1..] + [parked], 0);
      assert queue == q0[2..] + [parked];
    }

    /** An attempt that captures a draft, during whose wait for busy the user
        clicks Edit on the first queued row, and whose submission the agent
        does not answer. Edit takes the second item out of the queue and
        into the editor; the draft restore then writes the captured lines
        over it, so the edited item is lost. */
    method AttemptWithEdit(now: int)
      requires Valid() && phase == Idle && !busy && editorPresent && |queue| >= 2
      requires HasContent(ReadLines(editor))
      modifies this`dispatchLock, this`queue, this`nextId, this`pendingDraft, this`editor, this`phase, this`sent
      ensures Valid() && !dispatchLock && phase == Idle && pendingDraft == None
      ensures queue == old(queue)[2..]
      ensures sent == old(sent) + [ReadLines(Written(old(queue)[0].lines))]
      ensures editor == Written(ReadLines(old(editor)))
    {
      var before := ReadLines(editor);
      ghost var q0, id0 := queue, nextId;
      ghost var parked := Item(id0, before, now, true);
      EditWhileAwaitingBusy(now);
      var _ := AfterBusyWait();
      assert forall k | 0 <= k < |q0[2..]| :: q0[2..][k] == q0[k + 2];
      RemoveIdLast(q0[2..], parked);
    }
  }

  /** Pressing Enter while the agent is busy, with an empty queue and
      non-blank lines in the editor, queues exactly one ordinary item
      holding those lines and leaves one empty line in the editor. */
  method CaptureScenario(lines: seq<string>) returns (queued: seq<Item>, shown: seq<string>)
    requires |lines| > 0 && NoNbsp(lines) && HasContent(lines)
    ensures |queued| == 1 && queued[0].lines == lines && !queued[0].isDraft
    ensures shown == [""]
  {
    var c := new Controller(Absent, Paragraphs(lines), true, true);
    StripEachSpec(lines);
    assert ReadLines(c.editor) == lines;
    var _ := c.Keydown(KeyEvent("Enter", false, false, false, false, true), 0);
    queued := c.queue;
    ResetIsBlank();
    shown := ReadLines(c.editor);
  }

  /** One queued item, the agent idle and non-blank text in the editor:
      after one attempt the item has been delivered, the queue is empty and
      the editor holds the user's text again. */
  method DraftScenario(a: Item, draft: seq<string>) returns (remaining: seq<Item>, shown: seq<string>, ghost delivered: seq<seq<string>>)
    requires !a.isDraft && |draft| > 0 && NoNbsp(draft) && ParsesUnchanged(draft) && HasContent(draft)
    ensures remaining == [] && shown == draft && delivered == [ReadLines(Written(a.lines))]
  {
    var c := new Controller(Parsed(JArray([a])), Paragraphs(draft), true, false);
    StripEachSpec(draft);
    assert ReadLines(c.editor) == draft;
    WithoutDraftsNoop([a]);
    c.UndisturbedAttempt(1, true);
    remaining, shown, delivered := c.queue, ReadLines(c.editor), c.sent;
  }

  /** Two queued items, an empty editor and an agent that answers each
      submission: two attempts deliver the first item and then the second,
      and empty the queue. */
  method FifoScenario(a: Item, b: Item) returns (remaining: seq<Item>, ghost delivered: seq<seq<string>>)
    requires !a.isDraft && !b.isDraft
    ensures remaining == [] && delivered == [ReadLines(Written(a.lines)), ReadLines(Written(b.lines))]
  {
    var c := new Controller(Parsed(JArray([a, b])), Paragraphs([""]), true, false);
    WithoutDraftsNoop([a, b]);
    c.UndisturbedAttempt(1, true);
    c.UndisturbedAttempt(2, true);
    remaining, delivered := c.queue, c.sent;
  }

  /** Edit clicked while an attempt waits for the agent to turn busy, with a
      draft captured: Edit loads the edited item into the editor, but the
      restore that follows (here after the wait times out) writes the draft
      over it. The edited item ends in neither the queue, the editor nor the
      submissions. */
  method EditDuringAttemptScenario(a: Item, b: Item, draft: seq<string>)
    returns (remaining: seq<Item>, shown: seq<string>, ghost delivered: seq<seq<string>>)
    requires !a.isDraft && !b.isDraft
    requires |draft| > 0 && NoNbsp(draft) && ParsesUnchanged(draft) && HasContent(draft)
    ensures remaining == [] && shown == draft && delivered == [ReadLines(Written(a.lines))]
  {
    var c := new Controller(Parsed(JArray([a, b])), Paragraphs(draft), true, false);
    StripEachSpec(draft);
    assert ReadLines(c.editor) == draft;
    WithoutDraftsNoop([a, b]);
    c.AttemptWithEdit(1);
    ReadWritten(draft);
    remaining, shown, delivered := c.queue, ReadLines(c.editor), c.sent;
  }
}
