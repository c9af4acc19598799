/** Emptying a mailbox into the trash, page by page: internal/api/router_mail_special.go,
    moveMailboxMessagesToTrash. The server holds mailboxes by name, and messages move into whatever
    mailbox was resolved as the trash. Which of the server's answers are errors is up to oracles. */
module DrainToTrash {
  import opened Text
  import opened Lists

  const MOVE_PAGE_SIZE := 100

  /** `content` is the message itself; `id` is the handle the server lists it under. */
  datatype Message = Message(id: string, content: int)

  /** The messages of each mailbox, newest first, as they are listed. */
  type Boxes = map<string, seq<Message>>

  datatype DrainError = ListFailed | TrashFailed | TrashRequired | MoveFailed | AfterMoveFailed | NoIDs

  /** What lies outside the loop: which calls to the server fail, what resolving the trash gives,
      after which moves the caller's hook fails, and the id a moved message gets. */
  datatype Env = Env(fails: nat -> bool, resolve: Option<string>, hookFails: nat -> bool, newID: nat -> string)

  datatype State = State(boxes: Boxes, calls: nat, moved: nat, trash: string)

  /** The loop between passes, or after its return. */
  datatype Run = Running(state: State) | Returned(state: State, error: Option<DrainError>)

  function Contents(ms: seq<Message>): (r: seq<int>)
    ensures |r| == |ms| && forall i :: 0 <= i < |ms| ==> r[i] == ms[i].content
  {
    seq(|ms|, i requires 0 <= i < |ms| => ms[i].content)
  }

  function BoxOf(boxes: Boxes, name: string): seq<Message> {
    if name in boxes then boxes[name] else []
  }

  /** The position of the message an id stands for, if it is still there. */
  function Locate(ms: seq<Message>, id: string): (r: Option<nat>)
    ensures r.Some? ==> r.value < |ms| && TrimSpace(ms[r.value].id) == id
    ensures r.None? ==> forall i :: 0 <= i < |ms| ==> TrimSpace(ms[i].id) != id
  {
    if ms == [] then None
    else if TrimSpace(ms[0].id) == id then Some(0)
    else
      var r := Locate(ms[1..], id);
      if r.Some? then Some(r.value + 1)
      else assert forall i :: 0 < i < |ms| ==> ms[i] == ms[1..][i - 1]; None
  }

  function Without(ms: seq<Message>, k: nat): seq<Message>
    requires k < |ms|
  {
    ms[..k] + ms[k + 1..]
  }

  /** A message leaves one mailbox and becomes the newest of another, or of the same. */
  function Moved(boxes: Boxes, source: string, k: nat, dest: string, id: string): Boxes
    requires source in boxes && k < |boxes[source]|
  {
    var taken := boxes[source := Without(boxes[source], k)];
    taken[dest := [Message(id, boxes[source][k].content)] + BoxOf(taken, dest)]
  }

  /** One request to move a message; it fails if the server says so, if there is no such mailbox
      to move to, or if the id stands for no message of the source. */
  function MoveStep(st: State, source: string, id: string, env: Env): (State, bool) {
    var next := st.(calls := st.calls + 1);
    var at := Locate(BoxOf(st.boxes, source), id);
    if env.fails(st.calls) || st.trash !in st.boxes || at.None? then (next, false)
    else (next.(boxes := Moved(st.boxes, source, at.value, st.trash, env.newID(st.calls)), moved := st.moved + 1), true)
  }

  /** The inner loop over one listed page. */
  function MoveItems(st: State, source: string, items: seq<Message>, env: Env): Run
    decreases |items|
  {
    if items == [] then Running(st)
    else
      var id := TrimSpace(items[0].id);
      if id == "" then MoveItems(st, source, items[1..], env)
      else
        var (next, ok) := MoveStep(st, source, id, env);
        if !ok then Returned(next, Some(MoveFailed))
        else if env.hookFails(next.moved) then Returned(next, Some(AfterMoveFailed))
        else MoveItems(next, source, items[1..], env)
  }

  /** The name of the trash is resolved once, before the first move. */
  function Resolved(st: State, env: Env): Run {
    if TrimSpace(st.trash) != "" then Running(st)
    else if env.resolve.None? then Returned(st, Some(TrashFailed))
    else if TrimSpace(env.resolve.value) == "" then Returned(st, Some(TrashRequired))
    else Running(st.(trash := TrimSpace(env.resolve.value)))
  }

  /** One pass of the outer loop. */
  function Pass(st: State, source: string, env: Env): Run {
    var listed := st.(calls := st.calls + 1);
    var box := BoxOf(st.boxes, source);
    if env.fails(st.calls) then Returned(listed, Some(ListFailed))
    else if box == [] then Returned(listed, None)
    else
      var ready := Resolved(listed, env);
      if ready.Returned? then ready
      else
        var r := MoveItems(ready.state, source, box[..Min(MOVE_PAGE_SIZE, |box|)], env);
        if r.Running? && r.state.moved == st.moved then Returned(r.state, Some(NoIDs)) else r
  }

  /** The loop after some number of passes. */
  function Passes(st: State, source: string, env: Env, n: nat): Run {
    if n == 0 then Running(st)
    else
      var r := Passes(st, source, env, n - 1);
      if r.Running? then Pass(r.state, source, env) else r
  }

  ghost predicate Ends(st: State, source: string, env: Env) {
    exists n: nat :: Passes(st, source, env, n).Returned?
  }

  // ----- the loop as it is written -----

  class Server {
    var boxes: Boxes
    var calls: nat

    constructor (boxes: Boxes)
      ensures this.boxes == boxes && calls == 0
    {
      this.boxes, calls := boxes, 0;
    }

    method ListFirstPage(source: string, env: Env) returns (items: Option<seq<Message>>)
      modifies this`calls
      ensures calls == old(calls) + 1
      ensures var box := BoxOf(boxes, source);
        items == if env.fails(old(calls)) then None else Some(box[..Min(MOVE_PAGE_SIZE, |box|)])
    {
      calls := calls + 1;
      if env.fails(calls - 1) {
        return None;
      }
      var box := BoxOf(boxes, source);
      return Some(box[..Min(MOVE_PAGE_SIZE, |box|)]);
    }

    method Move(source: string, id: string, dest: string, env: Env, ghost moved: nat) returns (ok: bool)
      modifies this
      ensures (State(boxes, calls, if ok then moved + 1 else moved, dest), ok) ==
        MoveStep(State(old(boxes), old(calls), moved, dest), source, id, env)
    {
      var at := Locate(BoxOf(boxes, source), id);
      calls := calls + 1;
      if env.fails(calls - 1) || dest !in boxes || at.None? {
        return false;
      }
      boxes := Moved(boxes, source, at.value, dest, env.newID(calls - 1));
      return true;
    }

    /** One listed page: moves every message that has an id. */
    method MovePage(source: string, items: seq<Message>, dest: string, env: Env, moved0: nat)
      returns (moved: nat, error: Option<DrainError>)
      modifies this
      ensures var st := State(boxes, calls, moved, dest);
        MoveItems(State(old(boxes), old(calls), moved0, dest), source, items, env) ==
        if error.None? then Running(st) else Returned(st, error)
    {
      ghost var goal := MoveItems(State(boxes, calls, moved0, dest), source, items, env);
      moved, error := moved0, None;
      for i := 0 to |items|
        invariant error.None? && goal == MoveItems(State(boxes, calls, moved, dest), source, items[i..], env)
      {
        assert items[i..][1..] == items[i + 1..];
        var id := TrimSpace(items[i].id);
        if id == "" {
          continue;
        }
        var ok := Move(source, id, dest, env, moved);
        if !ok {
          return moved, Some(MoveFailed);
        }
        moved := moved + 1;
        if env.hookFails(moved) {
          return moved, Some(AfterMoveFailed);
        }
      }
    }

    /** The drain, cut off after `limit` passes: where the source's loop is then. */
    method MoveMailboxMessagesToTrash(source: string, env: Env, limit: nat)
      returns (ended: bool, movedCount: nat, trashMailbox: string, error: Option<DrainError>)
      modifies this
      ensures var st := State(boxes, calls, movedCount, trashMailbox);
        Passes(State(old(boxes), old(calls), 0, ""), source, env, limit) ==
          if ended then Returned(st, error) else Running(st)
    {
      ghost var start := State(boxes, calls, 0, "");
      ended, movedCount, trashMailbox, error := false, 0, "", None;
      for n := 0 to limit
        invariant !ended ==> Passes(start, source, env, n) == Running(State(boxes, calls, movedCount, trashMailbox))
        invariant ended ==>
          Passes(start, source, env, n) == Returned(State(boxes, calls, movedCount, trashMailbox), error)
      {
        if !ended {
          ended, movedCount, trashMailbox, error := OnePass(source, env, movedCount, trashMailbox);
        }
      }
    }

    method OnePass(source: string, env: Env, moved0: nat, trash0: string)
      returns (ended: bool, moved: nat, trash: string, error: Option<DrainError>)
      modifies this
      ensures var st := State(boxes, calls, moved, trash);
        Pass(State(old(boxes), old(calls), moved0, trash0), source, env) ==
          if ended then Returned(st, error) else Running(st)
    {
      hide MoveItems, TrimSpace;
      moved, trash := moved0, trash0;
      var items := ListFirstPage(source, env);
      if items.None? {
        return true, moved, trash, Some(ListFailed);
      }
      if |items.value| == 0 {
        return true, moved, trash, None;
      }
      if TrimSpace(trash) == "" {
        if env.resolve.None? {
          return true, moved, trash, Some(TrashFailed);
        }
        if TrimSpace(env.resolve.value) == "" {
          return true, moved, trash, Some(TrashRequired);
        }
        trash := TrimSpace(env.resolve.value);
      }
      moved, error := MovePage(source, items.value, trash, env, moved0);
      ended := error.Some?;
      if error.None? && moved == moved0 {
        ended, error := true, Some(NoIDs);
      }
    }
  }
}
