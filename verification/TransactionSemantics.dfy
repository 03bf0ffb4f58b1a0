/**
 * What programs of nested transaction blocks mean. `Exec` follows the session's connection, its depth
 * and the server's state; `Snapshot` is the plain meaning, in which a block that raises restores its
 * entry state. A transaction in which the server has rejected a statement is aborted: it refuses
 * everything until it is rolled back to a savepoint or as a whole.
 */
module TransactionSemantics {
  import opened Wrappers

  type Store = map<string, string>

  datatype Program =
    | Skip
    | Write(key: string, value: string)
    | RejectedWrite
    | Raise
    | Then(first: Program, second: Program)
    | Catch(body: Program, handler: Program)
    | Block(inner: Program)

  /** What an open transaction holds: its data, or nothing that can be used or kept. */
  datatype Data = Alive(store: Store) | Aborted

  /** What is durable, what the open connection holds, and how many blocks are open. */
  datatype View = View(durable: Store, pending: Option<Data>, depth: nat)

  /** Where a program leaves the session, and whether it ended normally. */
  datatype Done = Done(view: View, normal: bool)

  /** A statement fails at the server: an implicit connection is discarded, the transaction of a block is aborted. */
  function Refused(v: View): View {
    v.(pending := if v.depth == 0 then None else Some(Aborted))
  }

  /** A write outside every block opens an implicit connection, which stays open and uncommitted. */
  function AfterWrite(v: View, key: string, value: string): Done {
    match v.pending
    case None => Done(v.(pending := Some(Alive(v.durable[key := value]))), true)
    case Some(Alive(store)) => Done(v.(pending := Some(Alive(store[key := value]))), true)
    case Some(Aborted) => Done(Refused(v), false)
  }

  /** No savepoint can be set in an aborted transaction. */
  predicate Enterable(v: View) {
    v.pending != Some(Aborted)
  }

  function Enter(v: View): View {
    v.(pending := if v.pending.None? then Some(Alive(v.durable)) else v.pending, depth := v.depth + 1)
  }

  /**
   * Leaving a block entered in view `v`, when its body has ended in `inner`. Committing an aborted
   * transaction rolls it back, and releasing a savepoint in it fails.
   */
  function Leave(v: View, inner: Done): Done {
    if v.pending.None? then
      if inner.normal && inner.view.pending.Some? && inner.view.pending.value.Alive?
      then Done(View(inner.view.pending.value.store, None, v.depth), true)
      else Done(View(inner.view.durable, None, v.depth), inner.normal)
    else if inner.normal then
      Done(inner.view.(depth := v.depth), inner.view.pending != Some(Aborted))
    else Done(v.(durable := inner.view.durable), false)
  }

  function Exec(p: Program, v: View): Done {
    match p
    case Skip => Done(v, true)
    case Write(key, value) => AfterWrite(v, key, value)
    case RejectedWrite => Done(Refused(v), false)
    case Raise => Done(v, false)
    case Then(a, b) =>
      var first := Exec(a, v);
      if first.normal then Exec(b, first.view) else first
    case Catch(a, h) =>
      var body := Exec(a, v);
      if body.normal then body else Exec(h, body.view)
    case Block(b) => if Enterable(v) then Leave(v, Exec(b, Enter(v))) else Done(v, false)
  }

  /* ---------- the plain meaning ---------- */

  predicate Normal(p: Program) {
    match p
    case Skip => true
    case Write(_, _) => true
    case RejectedWrite => false
    case Raise => false
    case Then(a, b) => Normal(a) && Normal(b)
    case Catch(a, h) => Normal(a) || Normal(h)
    case Block(b) => Normal(b)
  }

  /** Blocks are all or nothing, everything else happens in order. */
  function Snapshot(p: Program, s: Store): Store {
    match p
    case Skip => s
    case Write(key, value) => s[key := value]
    case RejectedWrite => s
    case Raise => s
    case Then(a, b) => if Normal(a) then Snapshot(b, Snapshot(a, s)) else Snapshot(a, s)
    case Catch(a, h) => if Normal(a) then Snapshot(a, s) else Snapshot(h, Snapshot(a, s))
    case Block(b) => if Normal(b) then Snapshot(b, s) else s
  }

  /* ---------- how programs end, whatever the data ---------- */

  /** How a program ends in an open block: normally or not, and with its transaction aborted or not. */
  datatype Ending = Ending(normal: bool, aborted: bool)

  function Inside(p: Program, aborted: bool): Ending {
    match p
    case Skip => Ending(true, aborted)
    case Write(_, _) => Ending(!aborted, aborted)
    case RejectedWrite => Ending(false, true)
    case Raise => Ending(false, aborted)
    case Then(a, b) =>
      var first := Inside(a, aborted);
      if first.normal then Inside(b, first.aborted) else first
    case Catch(a, h) =>
      var body := Inside(a, aborted);
      if body.normal then body else Inside(h, body.aborted)
    case Block(b) =>
      if aborted then Ending(false, true)
      else
        var inner := Inside(b, false);
        if !inner.normal then Ending(false, false) else Ending(!inner.aborted, inner.aborted)
  }

  /** Whether a program ends normally when it starts idle and writes only inside blocks. */
  predicate Outside(p: Program) {
    match p
    case Skip => true
    case Write(_, _) => true
    case RejectedWrite => false
    case Raise => false
    case Then(a, b) => Outside(a) && Outside(b)
    case Catch(a, h) => Outside(a) || Outside(h)
    case Block(b) => Inside(b, false).normal
  }

  /** A program executes a write outside every block. */
  predicate WritesOutside(p: Program) {
    match p
    case Skip => false
    case Write(_, _) => true
    case RejectedWrite => false
    case Raise => false
    case Then(a, b) => WritesOutside(a) || (Outside(a) && WritesOutside(b))
    case Catch(a, h) => WritesOutside(a) || (!Outside(a) && WritesOutside(h))
    case Block(_) => false
  }

  /** The views a session can be in: an open block always has a connection. */
  predicate Possible(v: View) {
    v.depth > 0 ==> v.pending.Some?
  }

  /** Inside a block a program touches nothing but the pending data, and ends as `Inside` says. */
  lemma {:induction false} InsideABlock(p: Program, v: View)
    requires v.depth > 0 && v.pending.Some?
    ensures var d, e := Exec(p, v), Inside(p, v.pending.value.Aborted?);
            && d.normal == e.normal && d.view == v.(pending := d.view.pending)
            && d.view.pending.Some? && d.view.pending.value.Aborted? == e.aborted
  {
    match p
    case Skip =>
    case Write(_, _) =>
    case RejectedWrite =>
    case Raise =>
    case Then(a, b) =>
      InsideABlock(a, v);
      if Exec(a, v).normal { InsideABlock(b, Exec(a, v).view); }
    case Catch(a, h) =>
      InsideABlock(a, v);
      if !Exec(a, v).normal { InsideABlock(h, Exec(a, v).view); }
    case Block(b) =>
      if Enterable(v) { InsideABlock(b, Enter(v)); }
  }

  lemma {:induction false} DepthIsRestored(p: Program, v: View)
    requires Possible(v)
    ensures Exec(p, v).view.depth == v.depth && Possible(Exec(p, v).view)
    ensures v.depth > 0 ==> Exec(p, v).view.durable == v.durable
  {
    if v.depth > 0 {
      InsideABlock(p, v);
    } else {
      match p
      case Skip =>
      case Write(_, _) =>
      case RejectedWrite =>
      case Raise =>
      case Then(a, b) =>
        DepthIsRestored(a, v);
        if Exec(a, v).normal { DepthIsRestored(b, Exec(a, v).view); }
      case Catch(a, h) =>
        DepthIsRestored(a, v);
        if !Exec(a, v).normal { DepthIsRestored(h, Exec(a, v).view); }
      case Block(b) =>
    }
  }

  /** All or nothing: where a block entered in view `v` ends, when its body ends so and leaves these data. */
  function AllOrNothing(v: View, data: Option<Data>, e: Ending): Done {
    if !e.normal then Done(v, false)
    else if v.pending.Some? then Done(v.(pending := data), !e.aborted)
    else if e.aborted || data.None? || data.value.Aborted? then Done(v, true)
    else Done(v.(durable := data.value.store), true)
  }

  /**
   * Every block, whatever its body catches: one that raises restores what it found; one that ends
   * normally keeps its data if its transaction is alive. If the transaction is aborted, an outermost
   * block keeps nothing and still ends normally, and a nested one raises and leaves it aborted.
   */
  lemma BlockIsAllOrNothing(b: Program, v: View)
    requires Possible(v) && Enterable(v)
    ensures Exec(Block(b), v) == AllOrNothing(v, Exec(b, Enter(v)).view.pending, Inside(b, false))
  {
    InsideABlock(b, Enter(v));
  }

  /* ---------- refinement of the plain meaning ---------- */

  /** A program ends by a rejection that no block inside it has rolled back. */
  predicate Rejected(p: Program) {
    match p
    case Skip => false
    case Write(_, _) => false
    case RejectedWrite => true
    case Raise => false
    case Then(a, b) => Rejected(a) || (Normal(a) && Rejected(b))
    case Catch(a, h) => !Normal(a) && Rejected(h)
    case Block(_) => false
  }

  /** No handler in a block catches a rejection of this block: every one leaves its innermost block. */
  predicate LetsRejectionsOut(p: Program) {
    match p
    case Skip => true
    case Write(_, _) => true
    case RejectedWrite => true
    case Raise => true
    case Then(a, b) => LetsRejectionsOut(a) && (Normal(a) ==> LetsRejectionsOut(b))
    case Catch(a, h) => LetsRejectionsOut(a) && !Rejected(a) && (!Normal(a) ==> LetsRejectionsOut(h))
    case Block(b) => LetsRejectionsOut(b)
  }

  /** The same of every block of a program; outside blocks rejections may be caught. */
  predicate BlocksLetRejectionsOut(p: Program) {
    match p
    case Skip => true
    case Write(_, _) => true
    case RejectedWrite => true
    case Raise => true
    case Then(a, b) => BlocksLetRejectionsOut(a) && (Normal(a) ==> BlocksLetRejectionsOut(b))
    case Catch(a, h) => BlocksLetRejectionsOut(a) && (!Normal(a) ==> BlocksLetRejectionsOut(h))
    case Block(b) => LetsRejectionsOut(b)
  }

  /** A program without rejected statements meets the condition, whatever it raises and catches. */
  predicate NeverRejected(p: Program) {
    match p
    case Skip => true
    case Write(_, _) => true
    case RejectedWrite => false
    case Raise => true
    case Then(a, b) => NeverRejected(a) && NeverRejected(b)
    case Catch(a, h) => NeverRejected(a) && NeverRejected(h)
    case Block(b) => NeverRejected(b)
  }

  lemma {:induction false} NeverRejectedLetsOut(p: Program)
    requires NeverRejected(p)
    ensures !Rejected(p) && LetsRejectionsOut(p) && BlocksLetRejectionsOut(p)
  {
    match p
    case Skip =>
    case Write(_, _) =>
    case Raise =>
    case Then(a, b) =>
      NeverRejectedLetsOut(a);
      NeverRejectedLetsOut(b);
    case Catch(a, h) =>
      NeverRejectedLetsOut(a);
      NeverRejectedLetsOut(h);
    case Block(b) =>
      NeverRejectedLetsOut(b);
  }

  predicate WithoutHandlers(p: Program) {
    match p
    case Then(a, b) => WithoutHandlers(a) && WithoutHandlers(b)
    case Catch(_, _) => false
    case Block(b) => WithoutHandlers(b)
    case _ => true
  }

  /** Programs without handlers let all rejections out, whatever is rejected in them. */
  lemma {:induction false} WithoutHandlersLetsOut(p: Program)
    requires WithoutHandlers(p)
    ensures LetsRejectionsOut(p) && BlocksLetRejectionsOut(p)
  {
    match p
    case Then(a, b) =>
      WithoutHandlersLetsOut(a);
      WithoutHandlersLetsOut(b);
    case Block(b) => WithoutHandlersLetsOut(b);
    case _ =>
  }

  /** A block that lets rejections out acts on the pending data as its plain meaning says. */
  lemma {:induction false} BlockRefinesSnapshot(p: Program, v: View, s: Store)
    requires v.depth > 0 && v.pending == Some(Alive(s)) && LetsRejectionsOut(p)
    ensures Exec(p, v).normal == Normal(p) && (Rejected(p) ==> !Normal(p))
    ensures Exec(p, v).view == v.(pending := Some(if Rejected(p) then Aborted else Alive(Snapshot(p, s))))
  {
    match p
    case Skip =>
    case Write(_, _) =>
    case RejectedWrite =>
    case Raise =>
    case Then(a, b) =>
      BlockRefinesSnapshot(a, v, s);
      if Normal(a) { BlockRefinesSnapshot(b, Exec(a, v).view, Snapshot(a, s)); }
    case Catch(a, h) =>
      BlockRefinesSnapshot(a, v, s);
      if !Normal(a) { BlockRefinesSnapshot(h, Exec(a, v).view, Snapshot(a, s)); }
    case Block(b) =>
      BlockRefinesSnapshot(b, Enter(v), s);
  }

  lemma {:induction false} OutsideIsNormal(p: Program)
    requires BlocksLetRejectionsOut(p)
    ensures Outside(p) == Normal(p)
  {
    match p
    case Skip =>
    case Write(_, _) =>
    case RejectedWrite =>
    case Raise =>
    case Then(a, b) =>
      OutsideIsNormal(a);
      if Normal(a) { OutsideIsNormal(b); }
    case Catch(a, h) =>
      OutsideIsNormal(a);
      if !Normal(a) { OutsideIsNormal(h); }
    case Block(b) =>
      var v := View(map[], Some(Alive(map[])), 1);
      BlockRefinesSnapshot(b, v, map[]);
      InsideABlock(b, v);
  }

  /**
   * From an idle session, a program that writes only inside blocks, and whose blocks let rejections
   * out, makes its plain meaning durable and ends idle.
   */
  lemma {:induction false} IdleSessionRefinesSnapshots(p: Program, s: Store)
    requires !WritesOutside(p) && BlocksLetRejectionsOut(p)
    ensures Exec(p, View(s, None, 0)) == Done(View(Snapshot(p, s), None, 0), Normal(p))
  {
    match p
    case Skip =>
    case RejectedWrite =>
    case Raise =>
    case Then(a, b) =>
      OutsideIsNormal(a);
      IdleSessionRefinesSnapshots(a, s);
      if Normal(a) { IdleSessionRefinesSnapshots(b, Snapshot(a, s)); }
    case Catch(a, h) =>
      OutsideIsNormal(a);
      IdleSessionRefinesSnapshots(a, s);
      if !Normal(a) { IdleSessionRefinesSnapshots(h, Snapshot(a, s)); }
    case Block(b) =>
      BlockRefinesSnapshot(b, Enter(View(s, None, 0)), s);
  }

  /** A block that swallows a rejection ends normally and yet keeps nothing, unlike its plain meaning. */
  lemma SwallowedRejectionLosesTheBlock(key: string, value: string, s: Store)
    ensures var p := Block(Then(Write(key, value), Catch(RejectedWrite, Skip)));
            && Exec(p, View(s, None, 0)) == Done(View(s, None, 0), true)
            && Normal(p) && Snapshot(p, s) == s[key := value]
  {
    var v := Enter(View(s, None, 0));
    var w := Exec(Write(key, value), v).view;
    var swallow := Catch(RejectedWrite, Skip);
    assert Exec(swallow, w) == Done(w.(pending := Some(Aborted)), true);
    assert Normal(swallow) && Snapshot(swallow, s[key := value]) == s[key := value];
    assert Snapshot(Then(Write(key, value), swallow), s) == s[key := value];
  }
}
