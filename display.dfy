/**
 * The display base class: a component bound to a root DOM handle, with its
 * named-element table and, when `allowResize` is set before `construct`
 * runs, a debounced window-resize subscription.
 */
module Display {
  import opened Wrappers
  import opened Elements
  import Debounce

  /** A mutable JavaScript object holding a named-element table. */
  class ElementTable {
    var entries: Table

    constructor (entries: Table)
      ensures this.entries == entries
    {
      this.entries := entries;
    }
  }

  /** The options object a caller passes in; only its `elements` property is read here. */
  class Options {
    var elements: ElementTable?

    constructor (elements: ElementTable?)
      ensures this.elements == elements
    {
      this.elements := elements;
    }
  }

  class Display {
    var allowResize: bool
    var display: Option<Handle>
    var options: Options?
    var elements: ElementTable?
    /** The window-resize handlers `construct` registered, the host clock and the `onResize` calls. */
    var resize: Debounce.State

    /** The debounce invariant holds of the resize handlers. */
    ghost predicate Valid()
      reads this
    {
      Debounce.Inv(resize)
    }

    /**
     * `new minplayer.display(name, context, options)`. `subclassElements` is
     * what the subclass's `getElements()` returns; the root handle is the
     * context itself. With a context, `options.elements` (a fresh empty table
     * if it is missing) is extended in place with the subclass's elements and
     * becomes `this.elements`, the same object.
     */
    constructor (context: Option<Handle>, options: Options?, subclassElements: Table)
      requires context.Some? ==> options != null
      modifies options, if options != null then options.elements else null
      ensures Valid()
      ensures !allowResize && resize == Debounce.Initial
      ensures context.None? ==> display.None? && this.options == null && elements == null
      ensures context.Some? ==> display == context && this.options == options
      ensures context.Some? ==> elements != null && elements == options.elements
      ensures context.Some? && old(options.elements) != null ==> elements == old(options.elements)
      ensures context.Some? && old(options.elements) == null ==> fresh(elements)
      ensures context.Some? ==> (
        var callerEntries := if old(options.elements) != null then old(options.elements.entries) else map[];
        elements.entries == Extend(callerEntries, subclassElements))
      ensures context.None? && options != null ==> options.elements == old(options.elements)
      ensures options != null && old(options.elements) != null && context.None? ==>
        options.elements.entries == old(options.elements.entries)
    {
      allowResize := false;
      resize := Debounce.Initial;
      if context.Some? {
        display := context;
        this.options := options;
        var table := options.elements;
        if table == null {
          table := new ElementTable(map[]);
          options.elements := table;
        }
        table.entries := Extend(table.entries, subclassElements);
        elements := table;
      } else {
        display := None;
        this.options := null;
        elements := null;
      }
    }

    /** `construct()`: when `allowResize` is set, one more window-resize handler with nothing pending. */
    method Construct()
      requires Valid()
      modifies this`resize
      ensures Valid()
      ensures resize == if allowResize then Debounce.Subscribe(old(resize)) else old(resize)
    {
      Debounce.SubscribeKeepsInv(resize);
      if allowResize {
        resize := Debounce.Subscribe(resize);
      }
    }

    /** A window-resize event: every handler cancels its timeout and schedules `onResize` 200 ms on. */
    method WindowResized()
      requires Valid()
      modifies this`resize
      ensures Valid()
      ensures resize == Debounce.Step(old(resize), Debounce.Resized)
      ensures forall i :: 0 <= i < |resize.timeouts| ==>
        resize.timeouts[i] == Some(old(resize.now) + Debounce.QuietPeriod)
    {
      Debounce.StepKeepsInv(resize, Debounce.Resized);
      resize := Debounce.Step(resize, Debounce.Resized);
    }

    /** The host clock reaches `t`: every timeout due by then runs `onResize`; `fired` counts them. */
    method Tick(t: int) returns (fired: nat)
      requires Valid()
      requires resize.now <= t
      modifies this`resize
      ensures Valid()
      ensures resize == Debounce.Step(old(resize), Debounce.Tick(t))
      ensures fired == |Debounce.Due(old(resize.timeouts), t)| && fired <= |resize.timeouts|
    {
      Debounce.StepKeepsInv(resize, Debounce.Tick(t));
      fired := |Debounce.Due(resize.timeouts, t)|;
      resize := Debounce.Step(resize, Debounce.Tick(t));
    }
  }

  /**
   * A display whose subclass sets `allowResize` before `construct`: resize
   * events at 10 and 120 ms give one `onResize`, at 320 ms, and none before.
   */
  method ResizeBurstScenario(h: Handle) returns (calls: seq<int>)
    ensures calls == [320]
  {
    var options := new Options(null);
    var d := new Display(Some(h), options, map[]);
    d.allowResize := true;
    d.Construct();
    var fired := d.Tick(10);
    d.WindowResized();
    assert d.resize.timeouts == [Some(210)] && d.resize.calls == [];
    fired := d.Tick(120);
    d.WindowResized();
    fired := d.Tick(319);
    assert fired == 0;
    fired := d.Tick(400);
    calls := d.resize.calls;
  }

  /** Without `allowResize`, `construct` subscribes nothing and resizing never calls `onResize`. */
  method NoResizeScenario(h: Handle) returns (calls: seq<int>)
    ensures calls == []
  {
    var options := new Options(null);
    var d := new Display(Some(h), options, map[]);
    d.Construct();
    var fired := d.Tick(10);
    d.WindowResized();
    fired := d.Tick(500);
    calls := d.resize.calls;
  }
}
