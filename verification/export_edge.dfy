/** When an export fires. The single-file controller keeps a latch
    (`lastExportTrigger`) next to the `exportTrigger` prop; the web canvas view
    compares the prop with its previous value. Each run below is one run of
    the effect (controller) or one update (web view); the export itself is
    I/O and is not modelled. */
module ExportEdge {

  /** One effect run of the controller: whether it exported, and the latch
      afterwards. */
  datatype Step = Step(fired: bool, last: bool)

  /** An export needs the trigger, a clear latch and a mounted board; it then
      sets the latch. A false trigger clears the latch. A true trigger on an
      unmounted board does nothing. */
  function LatchStep(last: bool, trigger: bool, mounted: bool): (r: Step)
    ensures r.fired <==> trigger && !last && mounted
    ensures !trigger ==> !r.last
    ensures trigger && (last || mounted) ==> r.last
    ensures trigger && !mounted ==> r.last == last
  {
    if trigger && !last && mounted then Step(true, true)
    else if !trigger then Step(false, false)
    else Step(false, last)
  }

  /** The web view exports when the trigger has just become truthy and the
      stage and the `onExport` callback exist. */
  function WebFires(prev: bool, cur: bool, mounted: bool, hasHandler: bool): (r: bool)
    ensures r ==> cur && !prev
    ensures r <==> cur && !prev && mounted && hasHandler
  {
    cur && !prev && mounted && hasHandler
  }

  /** Exports the controller performs over a sequence of effect runs on a
      mounted board, starting from latch `last`. */
  function LatchExports(last: bool, triggers: seq<bool>): nat
    decreases |triggers|
  {
    if triggers == [] then 0
    else
      var s := LatchStep(last, triggers[0], true);
      (if s.fired then 1 else 0) + LatchExports(s.last, triggers[1..])
  }

  /** Rising edges of the trigger, given its value before the first run. */
  function RisingEdges(prev: bool, triggers: seq<bool>): nat
    decreases |triggers|
  {
    if triggers == [] then 0
    else (if triggers[0] && !prev then 1 else 0) + RisingEdges(triggers[0], triggers[1..])
  }

  /** Exports the web view performs over a sequence of prop values. */
  function WebExports(prev: bool, triggers: seq<bool>): nat
    decreases |triggers|
  {
    if triggers == [] then 0
    else (if WebFires(prev, triggers[0], true, true) then 1 else 0) + WebExports(triggers[0], triggers[1..])
  }

  /** On a mounted board the latch equals the trigger after every run, so the
      controller exports exactly once per rising edge of the trigger. */
  lemma {:induction false} LatchCountsRisingEdges(last: bool, triggers: seq<bool>)
    ensures LatchExports(last, triggers) == RisingEdges(last, triggers)
    decreases |triggers|
  {
    if triggers != [] {
      assert LatchStep(last, triggers[0], true).last == triggers[0];
      LatchCountsRisingEdges(triggers[0], triggers[1..]);
    }
  }

  /** The web view also exports once per rising edge, so both front ends
      agree on a mounted board with a handler. */
  lemma {:induction false} WebCountsRisingEdges(prev: bool, triggers: seq<bool>)
    ensures WebExports(prev, triggers) == RisingEdges(prev, triggers)
    ensures WebExports(prev, triggers) == LatchExports(prev, triggers)
    decreases |triggers|
  {
    if triggers != [] {
      WebCountsRisingEdges(triggers[0], triggers[1..]);
    }
    LatchCountsRisingEdges(prev, triggers);
  }

  /** A trigger that stays true exports once, however many runs it spans. */
  lemma {:induction false} HeldTriggerExportsOnce(n: nat)
    requires n >= 1
    ensures LatchExports(false, seq(n, _ => true)) == 1
  {
    LatchCountsRisingEdges(false, seq(n, _ => true));
    HeldTriggerHasOneEdge(n);
  }

  lemma {:induction false} HeldTriggerHasOneEdge(n: nat)
    requires n >= 1
    ensures RisingEdges(false, seq(n, _ => true)) == 1
  {
    var s := seq(n, _ => true);
    assert s[1..] == seq(n - 1, _ => true);
    NoEdgeWhileHeld(n - 1);
  }

  lemma {:induction false} NoEdgeWhileHeld(n: nat)
    ensures RisingEdges(true, seq(n, _ => true)) == 0
  {
    if n > 0 {
      var s := seq(n, _ => true);
      assert s[1..] == seq(n - 1, _ => true);
      NoEdgeWhileHeld(n - 1);
    }
  }

  /** The two front ends part ways at mount. The controller's latch starts
      clear and its effect also runs on mount, so a trigger already true then
      exports at once; the web view only compares on updates, taking the
      value it mounted with as the previous one, so that trigger is never
      exported. Afterwards both count rising edges. */
  lemma ExportAtMount(atMount: bool, updates: seq<bool>)
    ensures LatchExports(false, [atMount] + updates) ==
      (if atMount then 1 else 0) + WebExports(atMount, updates)
  {
    assert ([atMount] + updates)[1..] == updates;
    WebCountsRisingEdges(atMount, updates);
  }

  /** A trigger held true from mount on: one export from the controller,
      none from the web view. */
  lemma {:induction false} TriggerHeldAtMount(n: nat)
    ensures LatchExports(false, [true] + seq(n, _ => true)) == 1
    ensures WebExports(true, seq(n, _ => true)) == 0
  {
    ExportAtMount(true, seq(n, _ => true));
    WebCountsRisingEdges(true, seq(n, _ => true));
    NoEdgeWhileHeld(n);
  }
}
