/** Packing of dashboard panels, left to right, into a grid of 24 columns. */
module Layout {

  const COLUMNS := 24

  datatype Item = Row | Panel(w: nat, h: nat) {
    function Width(): nat {
      if Row? then COLUMNS else w
    }

    function Height(): nat {
      if Row? then 1 else h
    }
  }

  /** A panel's position and identifier. */
  datatype Placed = Placed(id: nat, x: nat, y: nat, w: nat, h: nat)

  predicate AboveOrLeft(p: Placed, q: Placed) {
    p.y + p.h <= q.y || p.x + p.w <= q.x
  }

  predicate Shows(p: Placed, item: Item) {
    p.w == item.Width() && p.h == item.Height() && (item.Row? ==> p.x == 0)
  }

  function TotalHeight(items: seq<Item>): nat {
    if items == [] then 0 else TotalHeight(items[..|items| - 1]) + items[|items| - 1].Height()
  }

  /** The lowest edge. */
  function Bottom(placed: seq<Placed>): nat {
    if placed == [] then 0
    else Max(Bottom(placed[..|placed| - 1]), placed[|placed| - 1].y + placed[|placed| - 1].h)
  }

  function Max(a: nat, b: nat): nat {
    if a < b then b else a
  }

  predicate Positive(items: seq<Item>) {
    forall item | item in items :: item.Width() >= 1
  }

  /** Item i continues the strip of the item before it. */
  predicate Continues(items: seq<Item>, placed: seq<Placed>, i: nat)
    requires i < |items| && i <= |placed|
  {
    && i > 0 && items[i].Panel? && items[i - 1].Panel?
    && placed[i - 1].x + placed[i - 1].w + items[i].w <= COLUMNS
  }

  /** A panel stands right of the previous one if it fits there; anything else starts below all before it. */
  predicate IsPlacedAt(items: seq<Item>, placed: seq<Placed>, i: nat)
    requires i < |items| && i < |placed|
  {
    if Continues(items, placed, i) then
      placed[i].x == placed[i - 1].x + placed[i - 1].w && placed[i].y == placed[i - 1].y
    else
      placed[i].x == 0 && placed[i].y == Bottom(placed[..i])
  }

  /** What holds of the panels placed so far, for any sizes. */
  ghost predicate Packed(items: seq<Item>, out: seq<Placed>) {
    && |out| == |items|
    && (forall i | 0 <= i < |out| :: out[i].id == i + 1 && Shows(out[i], items[i]))
    && (forall i, j | 0 <= i < j < |out| :: AboveOrLeft(out[i], out[j]))
    && (forall i | 0 <= i < |out| :: out[i].x + out[i].w <= COLUMNS <==> items[i].Width() <= COLUMNS)
    && Bottom(out) <= TotalHeight(items)
  }

  /** What also holds when no panel is empty. */
  ghost predicate Tight(items: seq<Item>, out: seq<Placed>) {
    && |out| == |items|
    && forall i | 0 <= i < |out| :: IsPlacedAt(items, out, i)
  }

  lemma PackedOneMore(items: seq<Item>, out: seq<Placed>, item: Item, p: Placed)
    requires Packed(items, out) && p.id == |out| + 1 && Shows(p, item) && p.y <= TotalHeight(items)
    requires forall i | 0 <= i < |out| :: AboveOrLeft(out[i], p)
    requires p.x + p.w <= COLUMNS <==> item.Width() <= COLUMNS
    ensures Packed(items + [item], out + [p])
  {
  }

  lemma BottomOneMore(out: seq<Placed>, p: Placed)
    ensures Bottom(out + [p]) == Max(Bottom(out), p.y + p.h)
  {
  }

  lemma TightOneMore(items: seq<Item>, out: seq<Placed>, item: Item, p: Placed)
    requires Tight(items, out) && IsPlacedAt(items + [item], out + [p], |items|)
    ensures Tight(items + [item], out + [p])
  {
    var items', out' := items + [item], out + [p];
    forall i | 0 <= i < |out'| ensures IsPlacedAt(items', out', i) {
      if i < |out| {
        assert IsPlacedAt(items, out, i);
        assert out'[..i] == out[..i];
      }
    }
  }

  /** The place from which packing continues: everything ends above the strip at y, or left of x in it;
      an empty panel in the first column may reach further down. */
  ghost predicate Clear(out: seq<Placed>, x: nat, y: nat, rowH: nat) {
    forall p | p in out ::
      p.y + p.h <= y || (p.x + p.w <= x && (p.y + p.h <= y + rowH || p.x + p.w == 0))
  }

  lemma NextStrip(out: seq<Placed>, x: nat, y: nat, rowH: nat)
    requires Clear(out, x, y, rowH)
    ensures Clear(out, 0, y + rowH, 0)
    ensures x == 0 ==> Clear(out, 0, y, 0)
  {
  }

  lemma ClearOneMore(out: seq<Placed>, x: nat, y: nat, rowH: nat, p: Placed)
    requires Clear(out, x, y, rowH) && p.x == x && p.y == y
    ensures forall i | 0 <= i < |out| :: AboveOrLeft(out[i], p)
    ensures Clear(out + [p], x + p.w, y, Max(rowH, p.h))
    ensures x == 0 && rowH == 0 ==> Clear(out + [p], 0, y + p.h, 0)
  {
  }

  /** The place from which packing continues follows the last panel. */
  ghost predicate After(items: seq<Item>, out: seq<Placed>, x: nat, y: nat, rowH: nat)
    requires |items| == |out|
  {
    var i := |items|;
    && (x > 0 ==> i > 0 && items[i - 1].Panel? && out[i - 1].x + out[i - 1].w == x && out[i - 1].y == y)
    && (x == 0 ==> rowH == 0 && (i == 0 || items[i - 1].Row?))
    && Bottom(out) == y + rowH
  }

  ghost predicate Inv(items: seq<Item>, out: seq<Placed>, x: nat, y: nat, rowH: nat) {
    && Packed(items, out) && Clear(out, x, y, rowH) && y + rowH <= TotalHeight(items)
    && (Positive(items) ==> Tight(items, out) && After(items, out, x, y, rowH))
  }

  lemma RowStep(items: seq<Item>, out: seq<Placed>, x: nat, y: nat, rowH: nat, item: Item, p: Placed)
    requires Inv(items, out, x, y, rowH) && item.Row?
    requires p == Placed(|items| + 1, 0, if x != 0 then y + rowH else y, COLUMNS, 1)
    ensures Inv(items + [item], out + [p], 0, p.y + 1, 0)
  {
    hide Packed, Tight, Clear, TotalHeight, Bottom, AboveOrLeft;
    HeightOneMore(items, item);
    NextStrip(out, x, y, rowH);
    ClearOneMore(out, 0, p.y, 0, p);
    assert |items| == |out| by { PackedLength(items, out); }
    PackedOneMore(items, out, item, p);
    if Positive(items + [item]) {
      PositivePrefix(items, item);
      BottomOneMore(out, p);
      assert (out + [p])[..|out|] == out;
      TightOneMore(items, out, item, p);
    }
  }

  lemma PanelStep(items: seq<Item>, out: seq<Placed>, x: nat, y: nat, rowH: nat, item: Item, p: Placed)
    requires Inv(items, out, x, y, rowH) && item.Panel?
    requires var wraps := x + item.w > COLUMNS;
             p == Placed(|items| + 1, if wraps then 0 else x, if wraps then y + rowH else y, item.w, item.h)
    ensures Inv(items + [item], out + [p], p.x + p.w, p.y, Max(if x + item.w > COLUMNS then 0 else rowH, p.h))
  {
    hide Packed, Tight, Clear, Positive, TotalHeight, Bottom, AboveOrLeft;
    var strip := if x + item.w > COLUMNS then 0 else rowH;
    HeightOneMore(items, item);
    NextStrip(out, x, y, rowH);
    ClearOneMore(out, p.x, p.y, strip, p);
    assert |items| == |out| by { PackedLength(items, out); }
    PackedOneMore(items, out, item, p);
    if Positive(items + [item]) {
      PositivePrefix(items, item);
      BottomOneMore(out, p);
      assert (out + [p])[..|out|] == out;
      TightOneMore(items, out, item, p);
    }
  }

  lemma PackedLength(items: seq<Item>, out: seq<Placed>)
    requires Packed(items, out)
    ensures |items| == |out|
  {
  }

  lemma PositivePrefix(items: seq<Item>, item: Item)
    requires Positive(items + [item])
    ensures Positive(items) && item.Width() >= 1
  {
  }

  method Pack(items: seq<Item>) returns (out: seq<Placed>)
    ensures Packed(items, out)
    ensures Positive(items) ==> Tight(items, out)
  {
    hide Inv, Packed, Tight, Positive;
    StartsEmpty();
    var x: nat, y: nat, rowH: nat, pid: nat := 0, 0, 0, 1;
    out := [];
    for i := 0 to |items|
      invariant |out| == i && pid == i + 1
      invariant Inv(items[..i], out, x, y, rowH)
    {
      assert items[..i + 1] == items[..i] + [items[i]];
      if items[i].Row? {
        ghost var stripX, stripY, stripH := x, y, rowH;
        if x != 0 {
          y := y + rowH;
        }
        x, rowH := 0, 0;
        RowStep(items[..i], out, stripX, stripY, stripH, items[i], Placed(pid, 0, y, COLUMNS, 1));
        out := out + [Placed(pid, 0, y, COLUMNS, 1)];
        pid := pid + 1;
        y := y + 1;
      } else {
        var w, h := items[i].w, items[i].h;
        ghost var stripX, stripY, stripH := x, y, rowH;
        if x + w > COLUMNS {
          x, y, rowH := 0, y + rowH, 0;
        }
        PanelStep(items[..i], out, stripX, stripY, stripH, items[i], Placed(pid, x, y, w, h));
        out := out + [Placed(pid, x, y, w, h)];
        pid := pid + 1;
        x := x + w;
        rowH := Max(rowH, h);
      }
    }
    assert items[..|items|] == items;
    InvMeans(items, out, x, y, rowH);
  }

  lemma InvMeans(items: seq<Item>, out: seq<Placed>, x: nat, y: nat, rowH: nat)
    requires Inv(items, out, x, y, rowH)
    ensures Packed(items, out) && (Positive(items) ==> Tight(items, out))
  {
  }

  /** Every panel stays inside the columns exactly when every item fits by itself; no cell of the grid is
      covered twice; nothing reaches below the sum of the heights. */
  lemma NoCellIsCoveredTwice(items: seq<Item>, out: seq<Placed>, i: nat, j: nat, column: nat, line: nat)
    requires Packed(items, out) && i < |out| && j < |out|
    requires CoversCell(out[i], column, line) && CoversCell(out[j], column, line)
    ensures i == j && line < TotalHeight(items) && (items[i].Width() <= COLUMNS ==> column < COLUMNS)
  {
    InsideBottom(out, i);
    assert i < j ==> AboveOrLeft(out[i], out[j]);
    assert j < i ==> AboveOrLeft(out[j], out[i]);
  }

  /** A panel stands right of the panel before it exactly if the 24 columns have room for it; a row takes a line
      of its own across all of them. */
  lemma StandsBesideIff(items: seq<Item>, out: seq<Placed>, i: nat)
    requires Packed(items, out) && Tight(items, out) && Positive(items) && 0 < i < |items|
    ensures items[i].Panel? && items[i - 1].Panel? ==>
              (out[i].x == out[i - 1].x + out[i - 1].w && out[i].y == out[i - 1].y <==>
               out[i - 1].x + out[i - 1].w + items[i].w <= 24)
    ensures items[i].Row? ==> out[i] == Placed(i + 1, 0, Bottom(out[..i]), 24, 1)
  {
    assert IsPlacedAt(items, out, i);
    assert items[i - 1] in items;
  }

  predicate CoversCell(p: Placed, column: nat, line: nat) {
    p.x <= column < p.x + p.w && p.y <= line < p.y + p.h
  }

  lemma {:induction false} InsideBottom(out: seq<Placed>, i: nat)
    requires i < |out|
    ensures out[i].y + out[i].h <= Bottom(out)
  {
    if i < |out| - 1 {
      InsideBottom(out[..|out| - 1], i);
    }
  }

  lemma StartsEmpty()
    ensures Inv([], [], 0, 0, 0)
  {
  }

  lemma HeightOneMore(items: seq<Item>, item: Item)
    ensures TotalHeight(items + [item]) == TotalHeight(items) + item.Height()
  {
  }
}
