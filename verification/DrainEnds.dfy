/** What the drain to trash keeps, and exactly when its loop ends. */
module DrainEnds {
  import opened Text
  import opened Lists
  import opened DrainToTrash

  /** The mailbox messages are moved to, once it is resolved. */
  function Dest(env: Env): string {
    if env.resolve.Some? then TrimSpace(env.resolve.value) else ""
  }

  // ----- nothing is lost or copied -----

  function Bag(ms: seq<Message>): multiset<int> {
    multiset(Contents(ms))
  }

  /** All messages of the source and the trash. */
  function Held(boxes: Boxes, source: string, dest: string): multiset<int> {
    if source == dest then Bag(BoxOf(boxes, source)) else Bag(BoxOf(boxes, source)) + Bag(BoxOf(boxes, dest))
  }

  /** Messages only went from the source to the trash, `moved` of them. */
  ghost predicate Kept(before: Boxes, after: Boxes, source: string, dest: string, moved: int) {
    && before.Keys <= after.Keys
    && (forall name :: name in before && name != source && name != dest ==> after[name] == before[name])
    && Held(after, source, dest) == Held(before, source, dest)
    && |BoxOf(after, source)| == |BoxOf(before, source)| - (if source == dest then 0 else moved)
  }

  lemma KeptMore(a: Boxes, b: Boxes, c: Boxes, source: string, dest: string, m: int, n: int)
    requires Kept(a, b, source, dest, m) && Kept(b, c, source, dest, n)
    ensures Kept(a, c, source, dest, m + n)
  {
    hide Held;
  }

  lemma BagParts(ms: seq<Message>, k: nat, m: Message)
    requires k < |ms| && m.content == ms[k].content
    ensures Bag(ms) == Bag(Without(ms, k)) + multiset{m.content}
    ensures forall other :: Bag([m] + other) == Bag(other) + multiset{m.content}
  {
    var c := Contents(ms);
    assert c == c[..k] + [c[k]] + c[k + 1..];
    assert Contents(Without(ms, k)) == c[..k] + c[k + 1..];
    forall other ensures Bag([m] + other) == Bag(other) + multiset{m.content} {
      assert Contents([m] + other) == [m.content] + Contents(other);
    }
  }

  lemma MovedKeeps(boxes: Boxes, source: string, k: nat, dest: string, id: string)
    requires source in boxes && k < |boxes[source]|
    ensures Kept(boxes, Moved(boxes, source, k, dest, id), source, dest, 1)
  {
    if source == dest {
      MovedWithinKeeps(boxes, source, k, id);
    } else {
      MovedAwayKeeps(boxes, source, k, dest, id);
    }
    hide Kept, Moved;
  }

  lemma MovedWithinKeeps(boxes: Boxes, source: string, k: nat, id: string)
    requires source in boxes && k < |boxes[source]|
    ensures Kept(boxes, Moved(boxes, source, k, source, id), source, source, 1)
  {
    var m := Message(id, boxes[source][k].content);
    BagParts(boxes[source], k, m);
    hide Bag;
    assert BoxOf(Moved(boxes, source, k, source, id), source) == [m] + Without(boxes[source], k);
  }

  lemma MovedAwayKeeps(boxes: Boxes, source: string, k: nat, dest: string, id: string)
    requires source in boxes && k < |boxes[source]| && source != dest
    ensures Kept(boxes, Moved(boxes, source, k, dest, id), source, dest, 1)
  {
    var m := Message(id, boxes[source][k].content);
    BagParts(boxes[source], k, m);
    hide Bag;
    var after := Moved(boxes, source, k, dest, id);
    assert BoxOf(after, dest) == [m] + BoxOf(boxes, dest);
    assert BoxOf(after, source) == Without(boxes[source], k);
    assert |Without(boxes[source], k)| == |boxes[source]| - 1;
    hide Without, BoxOf;
    Carry(Bag(BoxOf(boxes, source)), Bag(BoxOf(boxes, dest)), Bag(BoxOf(after, source)), Bag(BoxOf(after, dest)),
      m.content);
  }

  lemma Carry(source: multiset<int>, dest: multiset<int>, source': multiset<int>, dest': multiset<int>, x: int)
    requires source == source' + multiset{x} && dest' == dest + multiset{x}
    ensures source' + dest' == source + dest
  {
  }

  lemma {:induction false} ItemsKeep(st: State, source: string, items: seq<Message>, env: Env)
    ensures var r := MoveItems(st, source, items, env).state;
      r.trash == st.trash && r.moved >= st.moved && Kept(st.boxes, r.boxes, source, st.trash, r.moved - st.moved)
    decreases |items|
  {
    hide Kept, TrimSpace, Moved;
    NothingKept(st.boxes, source, st.trash);
    if items != [] {
      var id := TrimSpace(items[0].id);
      if id == "" {
        ItemsKeep(st, source, items[1..], env);
      } else {
        var (next, ok) := MoveStep(st, source, id, env);
        if ok {
          var at := Locate(BoxOf(st.boxes, source), id);
          MovedKeeps(st.boxes, source, at.value, st.trash, env.newID(st.calls));
          ItemsKeep(next, source, items[1..], env);
          var r := MoveItems(next, source, items[1..], env).state;
          KeptMore(st.boxes, next.boxes, r.boxes, source, st.trash, 1, r.moved - next.moved);
        }
      }
    }
  }

  lemma NothingKept(boxes: Boxes, source: string, dest: string)
    ensures Kept(boxes, boxes, source, dest, 0)
  {
  }

  /** The state of the loop: the trash unresolved and nothing moved, or resolved. */
  predicate Sound(st: State, env: Env) {
    (st.trash == "" && st.moved == 0) || (st.trash == Dest(env) && st.trash != "")
  }

  /** Resolving the trash touches nothing else. */
  lemma ResolvedSound(st: State, env: Env)
    requires Sound(st, env)
    ensures var r := Resolved(st, env);
      && r.state.boxes == st.boxes && r.state.moved == st.moved && Sound(r.state, env)
      && (r.Running? ==> r.state.trash == Dest(env) && Dest(env) != "")
      && (r.Returned? ==> r.error.Some?)
      && (Dest(env) != "" ==> r.Running?)
  {
    if env.resolve.Some? {
      TrimSpaceIdempotent(env.resolve.value);
    }
    NothingTrims();
    hide TrimSpace;
  }

  lemma NothingTrims()
    ensures TrimSpace("") == ""
  {
  }

  lemma PassKeeps(st: State, source: string, env: Env)
    requires Sound(st, env)
    ensures var run := Pass(st, source, env); var r := run.state;
      && Sound(r, env) && r.moved >= st.moved && Kept(st.boxes, r.boxes, source, Dest(env), r.moved - st.moved)
      && (run.Running? ==> r.moved > st.moved)
      && (run.Returned? && run.error.None? ==> BoxOf(r.boxes, source) == [])
  {
    hide Kept, TrimSpace, MoveItems, BoxOf, Resolved, Dest;
    NothingKept(st.boxes, source, Dest(env));
    var listed := st.(calls := st.calls + 1);
    ResolvedSound(listed, env);
    var ready := Resolved(listed, env);
    if ready.Running? {
      var box := BoxOf(st.boxes, source);
      var page := box[..Min(MOVE_PAGE_SIZE, |box|)];
      ItemsKeep(ready.state, source, page, env);
      ErrorsOnly(ready.state, source, page, env);
    }
  }

  lemma {:induction false} ErrorsOnly(st: State, source: string, items: seq<Message>, env: Env)
    ensures var r := MoveItems(st, source, items, env); r.Returned? ==> r.error.Some?
    decreases |items|
  {
    hide TrimSpace, MoveStep;
    if items != [] {
      ErrorsOnly(st, source, items[1..], env);
      ErrorsOnly(MoveStep(st, source, TrimSpace(items[0].id), env).0, source, items[1..], env);
    }
  }

  function Begin(boxes: Boxes, calls: nat): State {
    State(boxes, calls, 0, "")
  }

  /** After any number of passes, whatever failed: no message is lost or copied, no other mailbox is
      touched, and the count says how many moved. A drain that reports success left the source
      empty. */
  lemma {:induction false} DrainKeeps(boxes: Boxes, calls: nat, source: string, env: Env, n: nat)
    ensures var run := Passes(Begin(boxes, calls), source, env, n); var r := run.state;
      && Sound(r, env) && Kept(boxes, r.boxes, source, Dest(env), r.moved)
      && (run.Running? ==> r.moved >= n)
      && (run.Returned? && run.error.None? ==> BoxOf(r.boxes, source) == [])
  {
    hide Kept, BoxOf, Pass, Dest, Passes;
    var st := Begin(boxes, calls);
    NothingKept(boxes, source, Dest(env));
    PassesStep(st, source, env, n);
    if n > 0 {
      DrainKeeps(boxes, calls, source, env, n - 1);
      var before := Passes(st, source, env, n - 1);
      hide Sound;
      if before.Running? {
        PassKeeps(before.state, source, env);
        var r := Pass(before.state, source, env).state;
        KeptMore(boxes, before.state.boxes, r.boxes, source, Dest(env), before.state.moved,
          r.moved - before.state.moved);
      }
    }
  }

  lemma PassesStep(st: State, source: string, env: Env, n: nat)
    ensures n == 0 ==> Passes(st, source, env, n) == Running(st)
    ensures n > 0 ==> var before := Passes(st, source, env, n - 1);
      Passes(st, source, env, n) == if before.Running? then Pass(before.state, source, env) else before
  {
    hide Pass;
  }

  /** A successful drain into another mailbox moved every message exactly once. */
  lemma SuccessMovesAll(boxes: Boxes, calls: nat, source: string, env: Env, n: nat)
    requires Dest(env) != source
    ensures var run := Passes(Begin(boxes, calls), source, env, n);
      run.Returned? && run.error.None? ==>
        (BoxOf(run.state.boxes, source) == [] && run.state.moved == |BoxOf(boxes, source)|
         && Bag(BoxOf(run.state.boxes, Dest(env))) == Bag(BoxOf(boxes, Dest(env))) + Bag(BoxOf(boxes, source)))
  {
    hide Passes, Dest;
    DrainKeeps(boxes, calls, source, env, n);
    assert Bag([]) == multiset{} by { assert Contents([]) == []; }
    var run := Passes(Begin(boxes, calls), source, env, n);
    hide Bag, BoxOf;
    if run.Returned? && run.error.None? {
      var there := Bag(BoxOf(run.state.boxes, Dest(env)));
      assert multiset{} + there == there;
    }
  }

  // ----- ending -----

  /** With any other mailbox as the trash the loop ends, whatever the server answers. */
  lemma DrainEndsElsewhere(boxes: Boxes, calls: nat, source: string, env: Env)
    requires Dest(env) != source
    ensures Ends(Begin(boxes, calls), source, env)
  {
    var n: nat := |BoxOf(boxes, source)| + 1;
    hide Passes, Dest, Held, BoxOf;
    DrainKeeps(boxes, calls, source, env, n);
    assert Passes(Begin(boxes, calls), source, env, n).Returned?;
  }

  function Ids(ms: seq<Message>): (r: seq<string>)
    ensures |r| == |ms| && forall i :: 0 <= i < |ms| ==> r[i] == TrimSpace(ms[i].id)
  {
    seq(|ms|, i requires 0 <= i < |ms| => TrimSpace(ms[i].id))
  }

  ghost predicate NoBlankIDs(ms: seq<Message>) {
    forall i :: 0 <= i < |ms| ==> TrimSpace(ms[i].id) != ""
  }

  /** Nothing fails, and every message has an id, also when it has been moved. */
  ghost predicate Healthy(env: Env) {
    forall k: nat :: !env.fails(k) && !env.hookFails(k) && TrimSpace(env.newID(k)) != ""
  }

  /** The messages of a page not yet moved are still in the mailbox. */
  predicate StillThere(items: seq<Message>, box: seq<Message>) {
    multiset(Ids(items)) <= multiset(Ids(box))
  }

  lemma BagStep(wanted: seq<string>, b: seq<string>, k: nat, id: string)
    requires wanted != [] && multiset(wanted) <= multiset(b) && k < |b| && b[k] == wanted[0]
    ensures multiset(wanted[1..]) <= multiset([id] + (b[..k] + b[k + 1..]))
  {
    var rest := b[..k] + b[k + 1..];
    assert wanted == [wanted[0]] + wanted[1..];
    assert b == b[..k] + [b[k]] + b[k + 1..];
    assert multiset(b) == multiset(rest) + multiset{b[k]};
    assert multiset(wanted) == multiset(wanted[1..]) + multiset{b[k]};
    forall e ensures multiset(wanted[1..])[e] <= multiset(rest)[e] {
      assert multiset(wanted)[e] <= multiset(b)[e];
    }
    assert multiset([id] + rest) == multiset{id} + multiset(rest);
  }

  lemma IdsAfter(box: seq<Message>, k: nat, m: Message)
    requires k < |box|
    ensures Ids([m] + Without(box, k)) == [TrimSpace(m.id)] + (Ids(box)[..k] + Ids(box)[k + 1..])
    ensures NoBlankIDs(box) && TrimSpace(m.id) != "" ==> NoBlankIDs([m] + Without(box, k))
  {
    hide TrimSpace;
    var next := [m] + Without(box, k);
    assert |next| == |box|;
    assert forall i :: 0 <= i < |next| ==> next[i] == if i == 0 then m else if i <= k then box[i - 1] else box[i];
  }

  lemma Located(items: seq<Message>, box: seq<Message>)
    requires items != [] && StillThere(items, box)
    ensures Locate(box, TrimSpace(items[0].id)).Some?
  {
    hide TrimSpace, Locate;
    var wanted, b := Ids(items), Ids(box);
    assert wanted[0] in multiset(wanted);
    assert wanted[0] in multiset(b);
    var j :| 0 <= j < |b| && b[j] == wanted[0];
    assert TrimSpace(box[j].id) == wanted[0];
  }

  lemma MovedWithin(box: seq<Message>, items: seq<Message>, id: string)
    requires items != [] && StillThere(items, box) && NoBlankIDs(box) && TrimSpace(id) != ""
    ensures var at := Locate(box, TrimSpace(items[0].id));
      at.Some? && var next := [Message(id, box[at.value].content)] + Without(box, at.value);
      StillThere(items[1..], next) && NoBlankIDs(next) && |next| == |box|
  {
    Located(items, box);
    var k := Locate(box, TrimSpace(items[0].id)).value;
    hide TrimSpace, Locate, NoBlankIDs;
    IdsAfter(box, k, Message(id, box[k].content));
    assert Ids(items)[1..] == Ids(items[1..]);
    BagStep(Ids(items), Ids(box), k, TrimSpace(id));
  }

  /** Moving a page of a mailbox into the mailbox itself. */
  lemma {:induction false} ItemsMoveWithin(st: State, source: string, items: seq<Message>, env: Env)
    requires Healthy(env) && st.trash == source && source in st.boxes
    requires NoBlankIDs(items) && NoBlankIDs(st.boxes[source]) && StillThere(items, st.boxes[source])
    ensures var r := MoveItems(st, source, items, env);
      && r.Running? && r.state.trash == source && r.state.moved == st.moved + |items|
      && source in r.state.boxes && |r.state.boxes[source]| == |st.boxes[source]| && NoBlankIDs(r.state.boxes[source])
    decreases |items|
  {
    hide TrimSpace, StillThere, Locate;
    if items != [] {
      var box, id := st.boxes[source], TrimSpace(items[0].id);
      assert id != "" && TrimSpace(env.newID(st.calls)) != "" && !env.fails(st.calls);
      MovedWithin(box, items, env.newID(st.calls));
      var (next, ok) := MoveStep(st, source, id, env);
      assert ok && next.boxes[source] ==
        [Message(env.newID(st.calls), box[Locate(box, id).value].content)] + Without(box, Locate(box, id).value);
      ItemsMoveWithin(next, source, items[1..], env);
    }
  }

  lemma PageIsThere(box: seq<Message>, n: nat)
    requires n <= |box|
    ensures StillThere(box[..n], box)
  {
    hide TrimSpace;
    assert Ids(box) == Ids(box[..n]) + Ids(box[n..]);
  }

  /** A mailbox drained into itself: every pass leaves as many messages as there were. */
  lemma {:induction false} NeverEmptiesIntoItself(boxes: Boxes, calls: nat, source: string, env: Env, n: nat)
    requires Healthy(env) && Dest(env) == source != "" && source in boxes && boxes[source] != []
      && NoBlankIDs(boxes[source])
    ensures var run := Passes(Begin(boxes, calls), source, env, n);
      && run.Running? && source in run.state.boxes && (run.state.trash == "" || run.state.trash == source)
      && |run.state.boxes[source]| == |boxes[source]| && NoBlankIDs(run.state.boxes[source])
  {
    hide TrimSpace, MoveItems, StillThere;
    if n > 0 {
      NeverEmptiesIntoItself(boxes, calls, source, env, n - 1);
      var st := Passes(Begin(boxes, calls), source, env, n - 1).state;
      PassWithin(st, source, env);
      hide Pass;
    }
  }

  lemma PassWithin(st: State, source: string, env: Env)
    requires Healthy(env) && Dest(env) == source != "" && source in st.boxes && st.boxes[source] != []
    requires NoBlankIDs(st.boxes[source]) && (st.trash == "" || st.trash == source)
    ensures var run := Pass(st, source, env);
      && run.Running? && source in run.state.boxes && run.state.trash == source
      && |run.state.boxes[source]| == |st.boxes[source]| && NoBlankIDs(run.state.boxes[source])
  {
    hide TrimSpace, StillThere, Resolved, MoveItems, Dest;
    var box := st.boxes[source];
    var listed := st.(calls := st.calls + 1);
    assert !env.fails(st.calls);
    ResolvedAgain(listed, source, env);
    var page := box[..Min(MOVE_PAGE_SIZE, |box|)];
    PageIsThere(box, |page|);
    ItemsMoveWithin(Resolved(listed, env).state, source, page, env);
  }

  lemma ResolvedAgain(st: State, source: string, env: Env)
    requires Dest(env) == source != "" && (st.trash == "" || st.trash == source)
    ensures Resolved(st, env) == Running(st.(trash := source))
  {
    TrimSpaceIdempotent(env.resolve.value);
    NothingTrims();
    hide TrimSpace;
  }

  /** On a server that does not fail, the loop ends if and only if the source is empty, there is
      no trash, or the trash is another mailbox. */
  lemma DrainEndsExactly(boxes: Boxes, calls: nat, source: string, env: Env)
    requires Healthy(env) && NoBlankIDs(BoxOf(boxes, source))
    ensures Ends(Begin(boxes, calls), source, env) <==>
      BoxOf(boxes, source) == [] || Dest(env) == "" || Dest(env) != source
  {
    hide TrimSpace, Healthy;
    if BoxOf(boxes, source) == [] || Dest(env) == "" {
      FirstPassReturns(boxes, calls, source, env);
    } else if Dest(env) != source {
      DrainEndsElsewhere(boxes, calls, source, env);
    } else {
      forall n: nat ensures Passes(Begin(boxes, calls), source, env, n).Running? {
        NeverEmptiesIntoItself(boxes, calls, source, env, n);
      }
      hide Passes;
    }
  }

  lemma FirstPassReturns(boxes: Boxes, calls: nat, source: string, env: Env)
    requires BoxOf(boxes, source) == [] || Dest(env) == ""
    ensures Ends(Begin(boxes, calls), source, env)
  {
    var st := Begin(boxes, calls);
    assert TrimSpace("") == "";
    hide TrimSpace, MoveItems;
    assert Passes(st, source, env, 0) == Running(st);
    assert Passes(st, source, env, 1) == Pass(st, source, env);
    assert Pass(st, source, env).Returned?;
  }
}
