/**
  The layer cake: visible layers stacked on each other, of which a viewport shows a part.  A layer
  is taken to render the rows it is asked for.
*/
module LayerCake {
  import opened Sequences

  datatype Layer = Layer(visible: bool, rows: seq<string>)

  /** All rows of the visible layers, from the top. */
  function Stacked(layers: seq<Layer>): seq<string> {
    if layers == [] then []
    else Stacked(layers[..|layers| - 1]) + Shown(layers[|layers| - 1])
  }

  function Shown(layer: Layer): seq<string> { if layer.visible then layer.rows else [] }

  /** Rows `[row, row + height)`, as far as there are any. */
  function Window(rows: seq<string>, row: nat, height: nat): seq<string> {
    var lo := if row < |rows| then row else |rows|;
    var hi := if row + height < |rows| then row + height else |rows|;
    rows[lo..hi]
  }

  function Bytes(rows: seq<string>): string {
    if rows == [] then "" else rows[0] + Bytes(rows[1..])
  }

  lemma {:induction false} BytesConcat(a: seq<string>, b: seq<string>)
    ensures Bytes(a + b) == Bytes(a) + Bytes(b)
  {
    if a == [] {
      assert a + b == b && "" + Bytes(b) == Bytes(b);
    } else {
      BytesConcat(a[1..], b);
      assert (a + b)[1..] == a[1..] + b;
      Regroup(a[0], Bytes(a[1..]), Bytes(b));
    }
  }

  lemma BytesOne(row: string)
    ensures Bytes([row]) == row
  {
    Nothing(row);
  }

  lemma NoBytes(was: string)
    ensures was + Bytes([]) == was
  {
  }

  /** The part of a layer starting at row `top` that the viewport shows. */
  function Part(top: nat, rows: seq<string>, row: nat, height: nat): seq<string> {
    if row < top + |rows| && top < row + height then
      rows[if top < row then row - top else 0..if top + |rows| > row + height then row + height - top else |rows|]
    else []
  }

  /** Layers stand below each other in their order; an invisible one takes no room. */
  lemma StackGrows(layers: seq<Layer>, rows: seq<string>)
    ensures Stacked([]) == []
    ensures Stacked(layers + [Layer(true, rows)]) == Stacked(layers) + rows
    ensures Stacked(layers + [Layer(false, rows)]) == Stacked(layers)
  {
    var shown, hidden := layers + [Layer(true, rows)], layers + [Layer(false, rows)];
    assert shown[..|shown| - 1] == layers && hidden[..|hidden| - 1] == layers;
    Nothing(Stacked(layers));
  }

  /** The window holds `height` rows from `row` on, or as many as there are. */
  lemma WindowRows(rows: seq<string>, row: nat, height: nat, k: nat)
    ensures k < |Window(rows, row, height)| <==> k < height && row + k < |rows|
    ensures k < height && row + k < |rows| ==> Window(rows, row, height)[k] == rows[row + k]
  {
  }

  /** The window over a taller stack is the old window and the new layer's part. */
  lemma WindowGrows(above: seq<string>, layer: seq<string>, row: nat, height: nat)
    ensures Window(above + layer, row, height) == Window(above, row, height) + Part(|above|, layer, row, height)
  {
    var w, before := Window(above + layer, row, height), Window(above, row, height);
    var part := Part(|above|, layer, row, height);
    assert |w| == |before| + |part|;
    assert w == before + part;
  }

  /** Nothing below the end of the viewport shows. */
  lemma WindowIsFull(above: seq<string>, more: seq<string>, row: nat, height: nat)
    requires |above| >= row + height
    ensures Window(above + more, row, height) == Window(above, row, height)
  {
  }

  lemma {:induction false} StackedPrefix(layers: seq<Layer>, i: nat)
    requires i <= |layers|
    ensures Stacked(layers[..i]) <= Stacked(layers)
    decreases |layers| - i
  {
    if i < |layers| {
      StackedPrefix(layers, i + 1);
      assert layers[..i + 1][..i] == layers[..i];
    } else {
      assert layers[..i] == layers;
    }
  }

  // ----- Output buffer

  class OutputBuffer {
    var data: array<char>
    var size: nat

    ghost predicate Valid()
      reads this
    {
      size <= data.Length && data.Length > 0
    }

    ghost function Contents(): string
      requires Valid()
      reads this, data
    {
      data[..size]
    }

    constructor (capacity: nat)
      requires capacity > 0
      ensures Valid() && Contents() == "" && fresh(data)
    {
      data := new char[capacity];
      size := 0;
    }

    /** Grows by half, or to what is needed. */
    method Grow(required: nat)
      requires Valid() && required > data.Length
      modifies this
      ensures Valid() && Contents() == old(Contents()) && data.Length >= required && fresh(data) && size == old(size)
    {
      var capacity := data.Length * 3 / 2;
      if capacity < required {
        capacity := required;
      }
      var wider := new char[capacity];
      var i := 0;
      while i < size
        invariant 0 <= i <= size && wider[..i] == data[..i]
        modifies wider
      {
        wider[i] := data[i];
        i := i + 1;
      }
      data := wider;
    }

    method Append(text: string)
      requires Valid()
      modifies this, data
      ensures Valid() && (data == old(data) || fresh(data))
      ensures Contents() == old(Contents()) + text
    {
      if |text| == 0 {
        return;
      }
      ghost var was := Contents();
      if size + |text| > data.Length {
        Grow(size + |text|);
      }
      var i := 0;
      while i < |text|
        invariant 0 <= i <= |text| && size == old(size) && size + |text| <= data.Length
        invariant data[..size + i] == was + text[..i]
        modifies data
      {
        data[size + i] := text[i];
        i := i + 1;
      }
      size := size + |text|;
    }
  }

  // ----- The cake

  class Cake {
    var layers: seq<Layer>
    var viewportRow: nat
    var viewportHeight: nat

    constructor (height: nat)
      ensures layers == [] && viewportRow == 0 && viewportHeight == height
    {
      layers, viewportRow, viewportHeight := [], 0, height;
    }

    method AddLayer(layer: Layer)
      modifies this`layers
      ensures Stacked(layers) == Stacked(old(layers)) + Shown(layer)
    {
      layers := layers + [layer];
      assert layers[..|layers| - 1] == old(layers);
    }

    method TotalHeight() returns (total: nat)
      ensures total == |Stacked(layers)|
    {
      total := 0;
      var i: nat := 0;
      while i < |layers|
        invariant i <= |layers| && total == |Stacked(layers[..i])|
      {
        assert layers[..i + 1][..i] == layers[..i];
        if layers[i].visible {
          total := total + |layers[i].rows|;
        }
        i := i + 1;
      }
      assert layers[..i] == layers;
    }

    /** The viewport's rows of the whole stack, no more and no fewer. */
    method Render(output: OutputBuffer)
      requires output.Valid()
      modifies output, output.data
      ensures output.Valid()
      ensures output.Contents() == old(output.Contents()) + Bytes(Window(Stacked(layers), viewportRow, viewportHeight))
    {
      ghost var was := output.Contents();
      var currentRow: nat := 0;
      var i: nat := 0;
      RenderStart(was, layers, viewportRow, viewportHeight);
      hide *;
      while i < |layers|
        invariant i <= |layers| && output.Valid() && (output.data == old(output.data) || fresh(output.data))
        invariant currentRow == |Stacked(layers[..i])|
        invariant output.Contents() == was + Bytes(Window(Stacked(layers[..i]), viewportRow, viewportHeight))
      {
        var layer := layers[i];
        RenderStep(was, layers, i, viewportRow, viewportHeight);
        if layer.visible {
          RenderPart(layer, output, currentRow);
          currentRow := currentRow + |layer.rows|;
          if currentRow >= viewportRow + viewportHeight {
            RenderStops(layers, i + 1, viewportRow, viewportHeight);
            return;
          }
        }
        i := i + 1;
      }
      assert layers[..i] == layers;
    }

    /** Clips one layer to the viewport; the subtractions never go below zero. */
    method RenderPart(layer: Layer, output: OutputBuffer, currentRow: nat)
      requires output.Valid()
      modifies output, output.data
      ensures output.Valid() && (output.data == old(output.data) || fresh(output.data))
      ensures output.Contents() ==
              old(output.Contents()) + Bytes(Part(currentRow, layer.rows, viewportRow, viewportHeight))
    {
      var viewportEnd := viewportRow + viewportHeight;
      var layerEnd := currentRow + |layer.rows|;
      if layerEnd > viewportRow && currentRow < viewportEnd {
        var startRow: nat := 0;
        var rowCount: nat := |layer.rows|;
        if currentRow < viewportRow {
          startRow := viewportRow - currentRow;
          rowCount := rowCount - startRow;
        }
        if layerEnd > viewportEnd {
          rowCount := rowCount - (layerEnd - viewportEnd);
        }
        RenderLayer(layer, output, startRow, rowCount);
      }
    }

    /** A layer's own callback. */
    method RenderLayer(layer: Layer, output: OutputBuffer, startRow: nat, rowCount: nat)
      requires output.Valid() && startRow + rowCount <= |layer.rows|
      modifies output, output.data
      ensures output.Valid() && (output.data == old(output.data) || fresh(output.data))
      ensures output.Contents() == old(output.Contents()) + Bytes(layer.rows[startRow..startRow + rowCount])
    {
      hide Bytes;
      var i: nat := 0;
      ghost var was := output.Contents();
      ghost var rows := layer.rows[startRow..startRow + rowCount];
      NoBytes(was);
      while i < rowCount
        invariant i <= rowCount && output.Valid() && (output.data == old(output.data) || fresh(output.data))
        invariant output.Contents() == was + Bytes(rows[..i])
      {
        assert rows[..i + 1] == rows[..i] + [rows[i]];
        BytesConcat(rows[..i], [rows[i]]);
        BytesOne(rows[i]);
        Regroup(was, Bytes(rows[..i]), rows[i]);
        output.Append(layer.rows[startRow + i]);
        i := i + 1;
      }
      assert rows[..i] == rows;
    }
  }

  lemma RenderStart(was: string, layers: seq<Layer>, row: nat, height: nat)
    ensures |Stacked(layers[..0])| == 0
    ensures was == was + Bytes(Window(Stacked(layers[..0]), row, height))
  {
    assert layers[..0] == [];
  }

  /** What layer `i` adds to the output. */
  lemma RenderStep(was: string, layers: seq<Layer>, i: nat, row: nat, height: nat)
    requires i < |layers|
    ensures var above, all := Stacked(layers[..i]), Stacked(layers[..i + 1]);
            if !layers[i].visible then all == above
            else
              && |all| == |above| + |layers[i].rows|
              && was + Bytes(Window(all, row, height)) ==
                 was + Bytes(Window(above, row, height)) + Bytes(Part(|above|, layers[i].rows, row, height))
  {
    var above, layer := Stacked(layers[..i]), layers[i];
    assert layers[..i + 1][..i] == layers[..i];
    assert above + [] == above;
    if layer.visible {
      WindowGrows(above, layer.rows, row, height);
      var w, part := Window(above, row, height), Part(|above|, layer.rows, row, height);
      BytesConcat(w, part);
      Regroup(was, Bytes(w), Bytes(part));
    }
  }

  /** Leaving early loses nothing. */
  lemma RenderStops(layers: seq<Layer>, i: nat, row: nat, height: nat)
    requires i <= |layers| && |Stacked(layers[..i])| >= row + height
    ensures Window(Stacked(layers), row, height) == Window(Stacked(layers[..i]), row, height)
  {
    StackedPrefix(layers, i);
    var above, all := Stacked(layers[..i]), Stacked(layers);
    assert all == above + all[|above|..];
    WindowIsFull(above, all[|above|..], row, height);
  }
}
