/** The layer stack and painter's composition (kernel-lib/src/layer.rs:163-272). */
module Layers {
  import opened Basics
  import opened Sequences
  import opened Compositor
  import opened Windows

  // The stack

  /** The first position of `id`, or the length. */
  function Position(order: seq<nat>, id: nat): (i: nat)
    ensures i <= |order| && (i < |order| ==> order[i] == id)
    ensures forall j :: 0 <= j < i ==> order[j] != id
  {
    if order == [] || order[0] == id then 0 else 1 + Position(order[1..], id)
  }

  /** The stack without the first occurrence of `id`. */
  function Without(order: seq<nat>, id: nat): seq<nat> {
    var i := Position(order, id);
    if i < |order| then order[..i] + order[i + 1..] else order
  }

  datatype Stack = Stack(order: seq<nat>, layers: set<nat>, nextId: nat)

  datatype Op = NewLayer | MoveLayer(id: nat) | Hide(id: nat) | SetToTop(id: nat)

  function Apply(s: Stack, op: Op): Stack {
    match op
    case NewLayer => Stack([s.nextId] + s.order, s.layers + {s.nextId}, s.nextId + 1)
    case MoveLayer(_) => s
    case Hide(id) => s.(order := Without(s.order, id))
    case SetToTop(id) => s.(order := Without(s.order, id) + [id])
  }

  predicate WellStacked(s: Stack) {
    && NoDuplicates(s.order)
    && (forall i :: 0 <= i < |s.order| ==> s.order[i] in s.layers)
    && (forall id :: id in s.layers ==> id < s.nextId)
  }

  /** `a` is stacked below `b`. */
  predicate Below(order: seq<nat>, a: nat, b: nat) {
    exists i, j :: 0 <= i < j < |order| && order[i] == a && order[j] == b
  }

  /** Removal keeps the others in their order. */
  lemma WithoutKeepsOrder(order: seq<nat>, id: nat, i: nat, j: nat)
    requires i < j < |order| && order[i] != id && order[j] != id
    ensures Below(Without(order, id), order[i], order[j])
  {
    var p, r := Position(order, id), Without(order, id);
    var i', j' := if i < p then i else i - 1, if j < p then j else j - 1;
    assert r[i'] == order[i] && r[j'] == order[j];
  }

  /** Removal leaves no copy behind and takes nothing else away. */
  lemma WithoutRemoves(order: seq<nat>, id: nat)
    requires NoDuplicates(order)
    ensures id !in Without(order, id) && NoDuplicates(Without(order, id))
    ensures forall x :: x != id ==> (x in Without(order, id) <==> x in order)
  {}

  /** An operation keeps the stack free of duplicates and of unknown layers, exactly when it does not raise an
      unknown one; such a layer would make the next flush panic. */
  lemma ApplyKeepsStackExactly(s: Stack, op: Op)
    requires WellStacked(s)
    ensures WellStacked(Apply(s, op)) <==> (op.SetToTop? ==> op.id in s.layers)
    ensures op.SetToTop? ==> Apply(s, op).order[|Apply(s, op).order| - 1] == op.id
    ensures op.Hide? ==> op.id !in Apply(s, op).order
  {
    if op.Hide? || op.SetToTop? {
      WithoutRemoves(s.order, op.id);
      var r := Without(s.order, op.id);
      forall i | 0 <= i < |r| ensures r[i] in s.layers && r[i] != op.id {
        assert r[i] in r;
      }
      if op.SetToTop? {
        var s' := Apply(s, op);
        assert s'.order[|r|] == op.id;
      }
    }
  }

  /** A new layer gets the next id and the place below all others; hiding and raising change the order alone. */
  lemma ApplyReads(s: Stack, op: Op)
    ensures var s' := Apply(s, op);
      match op
      case NewLayer => s' == Stack([s.nextId] + s.order, s.layers + {s.nextId}, s.nextId + 1)
      case MoveLayer(_) => s' == s
      case Hide(id) =>
        && s'.layers == s.layers && s'.nextId == s.nextId
        && (id !in s.order ==> s'.order == s.order)
        && (id in s.order ==> |s'.order| == |s.order| - 1)
      case SetToTop(id) =>
        && s'.layers == s.layers && s'.nextId == s.nextId && s'.order != []
        && |s'.order| == (if id in s.order then |s.order| else |s.order| + 1) && s'.order[|s'.order| - 1] == id
  {}

  /** Layers an operation does not name stay in their order; a new one goes below them, a raised one above. */
  lemma ApplyKeepsOrder(s: Stack, op: Op, i: nat, j: nat)
    requires i < j < |s.order|
    requires op.Hide? || op.SetToTop? ==> s.order[i] != op.id && s.order[j] != op.id
    ensures var after := Apply(s, op).order;
      && Below(after, s.order[i], s.order[j])
      && (op.NewLayer? ==> Below(after, s.nextId, s.order[i]))
      && (op.SetToTop? ==> Below(after, s.order[j], op.id))
  {
    var after := Apply(s, op).order;
    match op
    case NewLayer =>
      assert after[0] == s.nextId && after[i + 1] == s.order[i] && after[j + 1] == s.order[j];
    case MoveLayer(_) =>
    case Hide(id) => WithoutKeepsOrder(s.order, id, i, j);
    case SetToTop(id) =>
      WithoutKeepsOrder(s.order, id, i, j);
      var r := Without(s.order, id);
      var k, l :| 0 <= k < l < |r| && r[k] == s.order[i] && r[l] == s.order[j];
      assert after[k] == s.order[i] && after[l] == s.order[j] && after[|r|] == id;
  }

  function ApplyAll(s: Stack, ops: seq<Op>): Stack
    decreases |ops|
  {
    if ops == [] then s else Apply(ApplyAll(s, ops[..|ops| - 1]), ops[|ops| - 1])
  }

  lemma {:induction false} RunIsWellStacked(s: Stack, ops: seq<Op>)
    requires WellStacked(s)
    requires forall k :: 0 <= k < |ops| && ops[k].SetToTop? ==> ops[k].id in ApplyAll(s, ops[..k]).layers
    ensures WellStacked(ApplyAll(s, ops))
    decreases |ops|
  {
    if ops != [] {
      var init := ops[..|ops| - 1];
      assert forall k :: 0 <= k < |init| ==> init[..k] == ops[..k];
      RunIsWellStacked(s, init);
      ApplyKeepsStackExactly(ApplyAll(s, init), ops[|ops| - 1]);
    }
  }

  // Composition

  predicate AllValid(ws: seq<Surface>) {
    forall k :: 0 <= k < |ws| ==> ws[k].Valid()
  }

  /** The colour the windows, painted in order, leave on pixel `o`. */
  function TopColor(ws: seq<Surface>, s: Screen, o: nat): Option<Color>
    requires s.stride >= 1 && AllValid(ws)
    decreases |ws|
  {
    if ws == [] then None
    else
      match PaintAt(ws[|ws| - 1], s, o)
      case Some(c) => Some(c)
      case None => TopColor(ws[..|ws| - 1], s, o)
  }

  predicate LastPainted(ws: seq<Surface>, s: Screen, o: nat, j: nat)
    requires s.stride >= 1 && AllValid(ws) && j < |ws|
  {
    PaintAt(ws[j], s, o).Some? && forall k :: j < k < |ws| ==> PaintAt(ws[k], s, o).None?
  }

  /** It is the colour of the last window that covers the pixel and is not transparent there. */
  lemma {:induction false} TopColorIsLastPainted(ws: seq<Surface>, s: Screen, o: nat)
    requires s.stride >= 1 && AllValid(ws)
    ensures match TopColor(ws, s, o)
      case None => forall k :: 0 <= k < |ws| ==> PaintAt(ws[k], s, o).None?
      case Some(c) => exists j :: 0 <= j < |ws| && LastPainted(ws, s, o, j) && PaintAt(ws[j], s, o) == Some(c)
    decreases |ws|
  {
    if ws != [] {
      var last := |ws| - 1;
      TopColorIsLastPainted(ws[..last], s, o);
      if PaintAt(ws[last], s, o).Some? {
        assert LastPainted(ws, s, o, last);
      } else if TopColor(ws, s, o).Some? {
        var c := TopColor(ws, s, o).value;
        var j :| 0 <= j < last && LastPainted(ws[..last], s, o, j) && PaintAt(ws[..last][j], s, o) == Some(c);
        forall k | j < k < last ensures PaintAt(ws[k], s, o).None? {
          assert PaintAt(ws[..last][k], s, o).None?;
        }
        assert LastPainted(ws, s, o, j);
      }
    }
  }

  /** The window covers the pixel with a colour of its own. */
  predicate Colours(w: Surface, s: Screen, x: nat, y: nat)
    requires w.Valid()
  {
    Inside(w, s, x, y) && w.transparent != Some(w.pixels[x - w.x][y - w.y])
  }

  /** The topmost window that does gives the pixel its colour. */
  lemma {:induction false} TopColorReads(ws: seq<Surface>, s: Screen, x: nat, y: nat, j: nat)
    requires AllValid(ws) && x < s.stride && j < |ws| && Colours(ws[j], s, x, y)
    requires forall k :: j < k < |ws| ==> !Colours(ws[k], s, x, y)
    ensures TopColor(ws, s, y * s.stride + x) == Some(ws[j].pixels[x - ws[j].x][y - ws[j].y])
    decreases |ws|
  {
    var last := |ws| - 1;
    PaintAtReads(ws[last], s, x, y);
    if j < last {
      TopColorReads(ws[..last], s, x, y, j);
    }
  }

  /** A frame after the windows were flushed over `before` in order. */
  predicate Composed(ws: seq<Surface>, s: Screen, before: seq<Byte>, after: seq<Byte>)
    requires s.stride >= 1 && AllValid(ws)
  {
    && |after| == |before|
    && forall i :: 0 <= i < |after| ==>
      match TopColor(ws, s, i / 4)
      case Some(c) => i % 4 < 3 ==> after[i] == Pixel(s.format, c)[i % 4]
      case None => after[i] == before[i]
  }

  lemma PaintOnTop(ws: seq<Surface>, w: Surface, s: Screen, before: seq<Byte>, mid: seq<Byte>, after: seq<Byte>)
    requires s.stride >= 1 && AllValid(ws) && w.Valid() && Composed(ws, s, before, mid) && |after| == |mid|
    requires forall i :: 0 <= i < |after| && i % 4 < 3 ==> after[i] == PaintedByte(w, s, mid, i)
    requires forall i :: 0 <= i < |after| && PaintAt(w, s, i / 4).None? ==> after[i] == mid[i]
    ensures Composed(ws + [w], s, before, after)
  {}

  class LayerManager {
    const fb: FrameBuffer
    var order: seq<nat>
    var layers: map<nat, Window>
    var nextId: nat

    ghost function View(): Stack
      reads this
    {
      Stack(order, layers.Keys, nextId)
    }

    constructor (fb: FrameBuffer)
      ensures View() == Stack([], {}, 0) && WellStacked(View()) && this.fb == fb
    {
      this.fb := fb;
      order, layers, nextId := [], map[], 0;
    }

    method AddLayer(window: Window) returns (id: nat)
      modifies this
      ensures View() == Apply(old(View()), NewLayer) && id == old(nextId)
      ensures layers == old(layers)[id := window]
    {
      id := nextId;
      nextId := nextId + 1;
      order := [id] + order;
      layers := layers[id := window];
    }

    method HideLayer(id: nat)
      modifies this`order
      ensures View() == Apply(old(View()), Hide(id))
    {
      var i := 0;
      while i < |order| && order[i] != id
        invariant 0 <= i <= |order|
        invariant forall j :: 0 <= j < i ==> order[j] != id
      {
        i := i + 1;
      }
      assert i == Position(order, id);
      if i < |order| {
        order := order[..i] + order[i + 1..];
      }
    }

    method RaiseLayer(id: nat)
      modifies this`order
      ensures View() == Apply(old(View()), SetToTop(id))
    {
      HideLayer(id);
      order := order + [id];
    }

    /** The windows of the first `n` layers of the stack. */
    ghost function Surfaces(n: nat): (ws: seq<Surface>)
      requires n <= |order| && forall i :: 0 <= i < n ==> order[i] in layers
      reads this, layers.Values
      ensures |ws| == n && forall i :: 0 <= i < n ==> ws[i] == layers[order[i]].View()
    {
      if n == 0 then [] else Surfaces(n - 1) + [layers[order[n - 1]].View()]
    }

    /** Memory reaches down to the window's last row, and an opaque window is rendered for the display. */
    ghost predicate Flushable(w: Window)
      reads w
    {
      && w.Valid() && Mapped(w.View(), fb.screen, fb.bytes.Length)
      && (w.transparent.None? ==> w.format == fb.screen.format)
    }

    /** The flush of this layer panics: it is unknown, or opaque and right of the scan line. */
    ghost predicate Faulty(id: nat)
      reads this, layers.Values
    {
      id !in layers || (layers[id].transparent.None? && Overhangs(layers[id].View(), fb.screen))
    }

    method FlushOne(w: Window, ghost below: seq<Surface>, ghost before: seq<Byte>) returns (panicked: bool)
      requires fb.Valid() && Flushable(w) && AllValid(below)
      requires Composed(below, fb.screen, before, fb.bytes[..])
      modifies fb.bytes
      ensures panicked <==> w.transparent.None? && Overhangs(w.View(), fb.screen)
      ensures Composed(below + [w.View()], fb.screen, before, fb.bytes[..])
      ensures panicked ==> Composed(below, fb.screen, before, fb.bytes[..])
    {
      ghost var mid := fb.bytes[..];
      panicked := w.Flush(fb);
      PaintOnTop(below, w.View(), fb.screen, before, mid, fb.bytes[..]);
      if panicked {
        assert fb.bytes[..] == mid;
      }
    }

    ghost predicate Ready()
      reads this, layers.Values
    {
      forall i :: 0 <= i < |order| && order[i] in layers ==> Flushable(layers[order[i]])
    }

    ghost predicate Known(n: nat)
      requires n <= |order|
      reads this
    {
      forall i :: 0 <= i < n ==> order[i] in layers
    }

    /** None of the first `n` layers is faulty. */
    ghost predicate Flawless(n: nat)
      requires n <= |order|
      reads this, layers.Values
    {
      Known(n) && forall i :: 0 <= i < n ==> !Faulty(order[i])
    }

    /** The first `n` layers have been flushed over `before`. */
    ghost predicate FlushedUpTo(n: nat, before: seq<Byte>)
      requires Ready() && n <= |order| && Known(n)
      reads this, layers.Values, fb.bytes
    {
      fb.Valid() && AllValid(Surfaces(n)) && Composed(Surfaces(n), fb.screen, before, fb.bytes[..])
    }

    method FlushNext(n: nat, ghost before: seq<Byte>) returns (panicked: bool)
      requires Ready() && n < |order| && Flawless(n) && order[n] in layers && FlushedUpTo(n, before)
      modifies fb.bytes
      ensures Ready() && panicked == Faulty(order[n])
      ensures if panicked then Flawless(n) && FlushedUpTo(n, before) else Flawless(n + 1) && FlushedUpTo(n + 1, before)
    {
      ghost var below := Surfaces(n);
      panicked := FlushOne(layers[order[n]], below, before);
      assert Surfaces(n + 1) == below + [layers[order[n]].View()];
    }

    /** Flushing stops with a panic exactly at the first faulty layer, with the layers below it painted. */
    method Flush() returns (panicked: bool, painted: nat)
      requires Ready() && fb.Valid()
      modifies fb.bytes
      ensures painted <= |order| && Flawless(painted)
      ensures if panicked then painted < |order| && Faulty(order[painted]) else painted == |order|
      ensures AllValid(Surfaces(painted))
      ensures Composed(Surfaces(painted), fb.screen, old(fb.bytes[..]), fb.bytes[..])
    {
      ghost var before := fb.bytes[..];
      for n := 0 to |order|
        invariant Ready() && Flawless(n) && FlushedUpTo(n, before)
      {
        if order[n] !in layers {
          return true, n;
        }
        panicked := FlushNext(n, before);
        if panicked {
          return true, n;
        }
      }
      return false, |order|;
    }
  }
}
