/**
 * The older prompt-queue controller of script.js. It has no dispatch lock
 * and no draft protection: trySendNext takes the NEWEST item off the queue,
 * writes it into the editor and arms one delayed-submit timer, cancelling
 * the timer it armed before. The timer, when it fires, submits the editor
 * unless the agent is busy by then.
 */
module LegacyDispatcher {
  import opened Text
  import opened Editor
  import opened Store
  import opened Keys

  /** The timer handles a handle may stand for: none, or the one it names. */
  function TimerSet(t: Option<nat>): set<nat> {
    if t.Some? then {t.value} else {}
  }

  class LegacyController {
    var queue: seq<Item>
    /** The editor's contents, and whether getEditor() finds it. */
    var editor: Surface
    var editorPresent: bool
    /** isSending(): the agent's stop button is shown. */
    var busy: bool
    /** The next fresh item id. */
    var nextId: nat
    /** `sendingTimer`: the handle of the last delayed submit armed. */
    var sendingTimer: Option<nat>
    /** The delayed submits armed and not yet fired or cancelled. */
    var scheduled: set<nat>
    /** The next fresh timer handle. */
    var nextTimer: nat
    /** What the editor held each time the controller submitted it. */
    ghost var sent: seq<seq<string>>

    /** At most one delayed submit is pending, and it is the one
        `sendingTimer` names. */
    ghost predicate Valid()
      reads this
    {
      && scheduled <= TimerSet(sendingTimer)
      && (forall t | t in scheduled :: t < nextTimer)
    }

    /** The script's start-up: loadQueue() of a record that holds an array,
        or nothing readable. */
    constructor (stored: Stored, editor: Surface, editorPresent: bool, busy: bool)
      requires LoadLegacyQueue(stored).Items?
      ensures Valid()
      ensures queue == LoadLegacyQueue(stored).items
      ensures sendingTimer == None && scheduled == {} && sent == []
      ensures this.editor == editor && this.editorPresent == editorPresent && this.busy == busy
    {
      queue := LoadLegacyQueue(stored).items;
      this.editor := editor;
      this.editorPresent := editorPresent;
      this.busy := busy;
      nextId := IdBound(LoadLegacyQueue(stored).items);
      sendingTimer := None;
      scheduled := {};
      nextTimer := 0;
      sent := [];
    }

    /** addToQueue(lines): appends one ordinary item with a fresh id. */
    method AddToQueue(lines: seq<string>, now: int)
      modifies this`queue, this`nextId
      ensures queue == old(queue) + [Item(old(nextId), lines, now, false)]
      ensures nextId == old(nextId) + 1
    {
      queue := queue + [Item(nextId, lines, now, false)];
      nextId := nextId + 1;
    }

    /** popLatestFromQueue(): `queue.pop()`, the newest item, or undefined
        on an empty queue. */
    method PopLatest() returns (item: Option<Item>)
      modifies this`queue
      ensures old(queue) == [] ==> item == None && queue == []
      ensures old(queue) != [] ==>
        item == Some(old(queue)[|old(queue)| - 1]) && queue == old(queue)[..|old(queue)| - 1]
    {
      if |queue| == 0 {
        item := None;
      } else {
        item := Some(queue[|queue| - 1]);
        queue := queue[..|queue| - 1];
      }
    }

    /** trySendNext(): does nothing on an empty queue, while the agent is
        busy, or with no editor; otherwise writes the newest item into the
        editor, cancels the previous delayed submit and arms a new one. */
    method TrySendNext()
      requires Valid()
      modifies this`queue, this`editor, this`sendingTimer, this`scheduled, this`nextTimer
      ensures Valid()
      ensures old(|queue| == 0 || busy || !editorPresent) ==>
        && queue == old(queue) && editor == old(editor) && sendingTimer == old(sendingTimer)
        && scheduled == old(scheduled) && nextTimer == old(nextTimer)
      ensures !old(|queue| == 0 || busy || !editorPresent) ==>
        && queue == old(queue)[..|old(queue)| - 1]
        && editor == Written(old(queue)[|old(queue)| - 1].lines)
        && sendingTimer == Some(old(nextTimer))
        && scheduled == {old(nextTimer)}
    {
      if |queue| == 0 { return; }
      if busy { return; }
      if !editorPresent { return; }

      var item := PopLatest();
      if item.None? {
        // The `!item` return: the queue was checked non-empty just before.
        assert false;
      }
      editor := Written(item.value.lines);

      if sendingTimer.Some? {
        scheduled := scheduled - {sendingTimer.value};
      }
      sendingTimer := Some(nextTimer);
      scheduled := scheduled + {nextTimer};
      nextTimer := nextTimer + 1;
    }

    /** The delayed submit `t` fires: unless the agent is busy by then, Enter
        is simulated on the editor and its contents are submitted. */
    method SubmitTimerFires(t: nat)
      requires Valid() && t in scheduled
      modifies this`scheduled, this`sent
      ensures Valid()
      ensures scheduled == old(scheduled) - {t} && scheduled == {}
      ensures sent == old(sent) + (if busy then [] else [ReadLines(editor)])
    {
      scheduled := scheduled - {t};
      if busy {
        return;
      }
      sent := sent + [ReadLines(editor)];
    }

    /** keydownHandler(e): a plain Enter in the editor while the agent is busy
        is taken from the page; the editor's lines are queued unless they are
        all blank, and the editor is then reset to one empty line. */
    method Keydown(e: KeyEvent, now: int) returns (prevented: bool)
      modifies this`queue, this`nextId, this`editor
      ensures prevented <==> PlainEnter(e) && editorPresent && e.inEditor && busy
      ensures !(prevented && HasContent(ReadLines(old(editor)))) ==>
        queue == old(queue) && editor == old(editor) && nextId == old(nextId)
      ensures prevented && HasContent(ReadLines(old(editor))) ==>
        && queue == old(queue) + [Item(old(nextId), ReadLines(old(editor)), now, false)]
        && editor == Written([""])
        && nextId == old(nextId) + 1
    {
      if !PlainEnter(e) { return false; }
      if !editorPresent { return false; }
      if !e.inEditor { return false; }
      if !busy { return false; }
      prevented := true;

      var lines := ReadLines(editor);
      if !HasContent(lines) { return; }

      AddToQueue(lines, now);
      editor := Written([""]);
    }

    /** The Clear button: empties the queue. */
    method Clear()
      modifies this`queue
      ensures queue == []
    {
      queue := [];
    }

    /** The Remove button of row `idx`: `queue.splice(idx, 1)`, with no
        range check of its own. */
    method Remove(idx: int)
      modifies this`queue
      ensures queue == SpliceOne(old(queue), idx)
      ensures 0 <= idx < |old(queue)| ==> queue == RemoveAt(old(queue), idx)
      ensures idx >= |old(queue)| ==> queue == old(queue)
    {
      queue := SpliceOne(queue, idx);
      SpliceOneSpec(old(queue), idx);
    }

    /** The agent starts or finishes a turn. */
    method SetBusy(b: bool)
      modifies this`busy
      ensures busy == b
    {
      busy := b;
    }

    /** The user edits the editor's contents. */
    method UserTypes(s: Surface)
      modifies this`editor
      ensures editor == s
    {
      editor := s;
    }

    /** The page adds or removes the editor element. */
    method SetEditorPresent(b: bool)
      modifies this`editorPresent
      ensures editorPresent == b
    {
      editorPresent := b;
    }
  }

  /** Two items queued in order, the agent idle: the first attempt writes the
      NEWER item into the editor and leaves the older one queued, unlike the
      first-in-first-out order of script.user.js. */
  method NewestFirstScenario(a: Item, b: Item) returns (remaining: seq<Item>, shown: Surface)
    ensures remaining == [a] && shown == Written(b.lines)
  {
    var c := new LegacyController(Parsed(JArray([a, b])), Paragraphs([""]), true, false);
    c.TrySendNext();
    remaining, shown := c.queue, c.editor;
  }

  /** Two attempts in a row, before any delayed submit fires: the first
      delayed submit is cancelled, and only the second is still pending. */
  method OneTimerScenario(a: Item, b: Item) returns (pending: set<nat>, first: nat, second: nat)
    ensures first != second && pending == {second}
  {
    var c := new LegacyController(Parsed(JArray([a, b])), Paragraphs([""]), true, false);
    c.TrySendNext();
    first := c.sendingTimer.value;
    c.TrySendNext();
    second := c.sendingTimer.value;
    pending := c.scheduled;
  }
}
