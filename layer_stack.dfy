/**
 * The drawing window's layer list as a value: `layers` with index 0 the topmost,
 * and `active`, the active index, a Python index (so -1 means the last layer).
 * Each operation is the list manipulation the window performs.
 */
module LayerStack {
  import opened Raster
  import PyList
  import opened Decimals

  datatype Layer = Layer(name: string, image: Image)

  datatype Stack = Stack(layers: seq<Layer>, active: int)

  /** What every layer operation keeps: the list is never empty, and the active index
      is a position in it or -1, the value `remove_layer` leaves after removing the
      only layer (Python reads it as "the last layer"). */
  predicate Valid(st: Stack) {
    |st.layers| >= 1 && -1 <= st.active < |st.layers|
  }

  /** The position of the active layer. */
  function ActivePosition(st: Stack): (k: nat)
    requires Valid(st)
    ensures k < |st.layers|
    ensures st.active >= 0 ==> k == st.active
    ensures st.active == -1 ==> k == |st.layers| - 1
  {
    PyList.Resolve(st.active, |st.layers|)
  }

  function ActiveLayer(st: Stack): Layer
    requires Valid(st)
  {
    st.layers[ActivePosition(st)]
  }

  /** `s[i]` and `s[j]` exchanged. */
  function Swap<T>(s: seq<T>, i: nat, j: nat): (r: seq<T>)
    requires i < |s| && j < |s|
    ensures |r| == |s| && r[i] == s[j] && r[j] == s[i]
    ensures forall k :: 0 <= k < |s| && k != i && k != j ==> r[k] == s[k]
  {
    s[i := s[j]][j := s[i]]
  }

  /** The name `add_layer` gives when none is passed: "Layer " and the new count. */
  function DefaultName(count: nat): (r: string)
    ensures |r| > 6 && r[..6] == "Layer "
    ensures AllDigits(r[6..]) && r[6] != '0' && DigitsValue(r[6..]) == count + 1
  {
    var name := "Layer " + Decimal(count + 1);
    assert name[6..] == Decimal(count + 1);
    name
  }

  /** `add_layer`: the new layer is inserted (Python `insert`) at the active index,
      and the active index is stored again unchanged. */
  function Add(st: Stack, layer: Layer): (r: Stack)
    ensures |r.layers| == |st.layers| + 1 && r.active == st.active
    ensures var p := PyList.InsertPosition(st.active, |st.layers|);
            r.layers[p] == layer && r.layers[..p] == st.layers[..p] && r.layers[p + 1..] == st.layers[p..]
    ensures multiset(r.layers) == multiset(st.layers) + multiset{layer}
    ensures Valid(st) || (st.layers == [] && -1 <= st.active <= 0) ==> Valid(r)
  {
    PyList.InsertAddsOne(st.layers, st.active, layer);
    var insertIndex := st.active;
    Stack(PyList.Insert(st.layers, insertIndex, layer), insertIndex)
  }

  /** The blank layer `remove_layer` puts back when it has removed the only layer. */
  function Background(w: nat, h: nat): Layer {
    Layer("Background", Blank(w, h, Transparent))
  }

  /** `remove_layer`: the active layer is popped; an index that fell off the end becomes
      `len - 1`; an emptied list gets a transparent "Background" layer of the canvas size. */
  function Remove(st: Stack, w: nat, h: nat): (r: Stack)
    requires Valid(st)
    ensures Valid(r)
    ensures |st.layers| == 1 ==> r == Stack([Background(w, h)], -1)
    ensures |st.layers| > 1 ==>
              var k := ActivePosition(st);
              && r.layers == st.layers[..k] + st.layers[k + 1..]
              && ActivePosition(r) == (if k < |st.layers| - 1 then k else |st.layers| - 2)
              && multiset(r.layers) + multiset{ActiveLayer(st)} == multiset(st.layers)
    ensures |st.layers| > 1 ==>
              r.active == (if st.active >= |st.layers| - 1 then |st.layers| - 2 else st.active)
  {
    var (removed, rest) := PyList.Pop(st.layers, st.active);
    var active := if st.active >= |rest| then |rest| - 1 else st.active;
    if rest == [] then
      Add(Stack(rest, active), Background(w, h))
    else
      PopActive(st);
      Stack(rest, active)
  }

  /** Popping the active layer of a stack of two or more, with the index clamped as
      `remove_layer` clamps it. */
  lemma PopActive(st: Stack)
    requires Valid(st) && |st.layers| > 1
    ensures var (removed, rest) := PyList.Pop(st.layers, st.active);
            var active := if st.active >= |rest| then |rest| - 1 else st.active;
            var k := ActivePosition(st);
            && Valid(Stack(rest, active))
            && rest == st.layers[..k] + st.layers[k + 1..]
            && ActivePosition(Stack(rest, active)) == (if k < |st.layers| - 1 then k else |st.layers| - 2)
            && multiset(rest) + multiset{ActiveLayer(st)} == multiset(st.layers)
  {
    PyList.PopRemovesOne(st.layers, st.active);
  }

  /** `move_layer_up`: when the index is positive, the active layer is popped and
      re-inserted one place higher, and the index follows it. */
  function MoveUp(st: Stack): (r: Stack)
    requires Valid(st)
    ensures Valid(r)
    ensures st.active > 0 ==> r.layers == Swap(st.layers, st.active - 1, st.active) && r.active == st.active - 1
    ensures st.active <= 0 ==> r == st
    ensures multiset(r.layers) == multiset(st.layers)
    ensures ActiveLayer(r) == ActiveLayer(st)
  {
    if st.active > 0 then
      var (layer, rest) := PyList.Pop(st.layers, st.active);
      PopInsertIsSwap(st.layers, st.active - 1);
      SwapKeepsMultiset(st.layers, st.active - 1, st.active);
      Stack(PyList.Insert(rest, st.active - 1, layer), st.active - 1)
    else
      st
  }

  /** `move_layer_down`: when the index is below `len - 1`, the active layer is popped and
      re-inserted at index + 1, and the index follows it. At index -1 the pop takes the
      last layer and the insert puts it at position 0: the bottom layer goes to the top. */
  function MoveDown(st: Stack): (r: Stack)
    requires Valid(st)
    ensures Valid(r)
    ensures 0 <= st.active < |st.layers| - 1 ==>
              r.layers == Swap(st.layers, st.active, st.active + 1) && r.active == st.active + 1
    ensures st.active == -1 ==>
              r.layers == [st.layers[|st.layers| - 1]] + st.layers[..|st.layers| - 1] && r.active == 0
    ensures st.active == |st.layers| - 1 ==> r == st
    ensures multiset(r.layers) == multiset(st.layers)
    ensures ActiveLayer(r) == ActiveLayer(st)
  {
    if st.active < |st.layers| - 1 then
      MovedDown(st);
      var (layer, rest) := PyList.Pop(st.layers, st.active);
      Stack(PyList.Insert(rest, st.active + 1, layer), st.active + 1)
    else
      st
  }

  /** What the pop and insert of `move_layer_down` do below the last index. */
  lemma MovedDown(st: Stack)
    requires Valid(st) && st.active < |st.layers| - 1
    ensures var (layer, rest) := PyList.Pop(st.layers, st.active);
            var r := Stack(PyList.Insert(rest, st.active + 1, layer), st.active + 1);
            && Valid(r)
            && (st.active >= 0 ==> r.layers == Swap(st.layers, st.active, st.active + 1))
            && (st.active == -1 ==> r.layers == [st.layers[|st.layers| - 1]] + st.layers[..|st.layers| - 1])
            && multiset(r.layers) == multiset(st.layers)
            && ActiveLayer(r) == ActiveLayer(st)
  {
    var (layer, rest) := PyList.Pop(st.layers, st.active);
    PyList.PopRemovesOne(st.layers, st.active);
    PyList.InsertAddsOne(rest, st.active + 1, layer);
    if st.active >= 0 {
      PopInsertIsSwap(st.layers, st.active);
    } else {
      BottomToTop(st.layers);
    }
  }

  /** Popping the last element and inserting it at position 0. */
  lemma BottomToTop<T>(s: seq<T>)
    requires |s| >= 1
    ensures PyList.Insert(PyList.Pop(s, -1).1, 0, PyList.Pop(s, -1).0) == [s[|s| - 1]] + s[..|s| - 1]
  {
    var (x, rest) := PyList.Pop(s, -1);
    assert rest == s[..|s| - 1];
    assert PyList.Insert(rest, 0, x) == rest[..0] + [x] + rest[0..];
  }

  /** Popping one of two neighbours and inserting it at the other's index exchanges them. */
  lemma PopInsertIsSwap<T>(s: seq<T>, i: nat)
    requires i + 1 < |s|
    ensures PyList.Insert(PyList.Pop(s, i + 1).1, i, s[i + 1]) == Swap(s, i, i + 1)
    ensures PyList.Insert(PyList.Pop(s, i).1, i + 1, s[i]) == Swap(s, i, i + 1)
  {
    SwapAsSlices(s, i);
    PopLowerInsertHigher(s, i);
    PopHigherInsertLower(s, i);
  }

  lemma SwapAsSlices<T>(s: seq<T>, i: nat)
    requires i + 1 < |s|
    ensures Swap(s, i, i + 1) == s[..i] + [s[i + 1]] + [s[i]] + s[i + 2..]
  {
  }

  lemma PopHigherInsertLower<T>(s: seq<T>, i: nat)
    requires i + 1 < |s|
    ensures PyList.Insert(PyList.Pop(s, i + 1).1, i, s[i + 1]) == s[..i] + [s[i + 1]] + [s[i]] + s[i + 2..]
  {
    var rest := PyList.Pop(s, i + 1).1;
    assert rest == s[..i + 1] + s[i + 2..];
    assert rest[..i] == s[..i];
    assert rest[i..] == [s[i]] + s[i + 2..];
    assert PyList.Insert(rest, i, s[i + 1]) == rest[..i] + [s[i + 1]] + rest[i..];
  }

  lemma PopLowerInsertHigher<T>(s: seq<T>, i: nat)
    requires i + 1 < |s|
    ensures PyList.Insert(PyList.Pop(s, i).1, i + 1, s[i]) == s[..i] + [s[i + 1]] + [s[i]] + s[i + 2..]
  {
    var rest := PyList.Pop(s, i).1;
    assert rest == s[..i] + s[i + 1..];
    assert rest[..i + 1] == s[..i] + [s[i + 1]];
    assert rest[i + 1..] == s[i + 2..];
    assert PyList.Insert(rest, i + 1, s[i]) == rest[..i + 1] + [s[i]] + rest[i + 1..];
  }

  lemma SwapKeepsMultiset<T>(s: seq<T>, i: nat, j: nat)
    requires i < |s| && j < |s|
    ensures multiset(Swap(s, i, j)) == multiset(s)
  {
  }

  /** While the index is a real position, `add_layer` makes the new layer the active one. */
  lemma AddActivatesNewLayer(st: Stack, layer: Layer)
    requires Valid(st) && st.active >= 0
    ensures ActiveLayer(Add(st, layer)) == layer
  {
  }

  /** At index -1, `add_layer` inserts the new layer just above the last one but the stored
      index -1 still designates the last layer: the previous bottom layer stays active. */
  lemma AddAtMinusOneKeepsBottomActive(st: Stack, layer: Layer)
    requires Valid(st) && st.active == -1
    ensures var r := Add(st, layer);
            && r.layers[|st.layers| - 1] == layer
            && ActivePosition(r) == |st.layers|
            && ActiveLayer(r) == st.layers[|st.layers| - 1]
  {
  }

  /** Removing the only layer, then pressing "+": the new layer is not the active one,
      and moving the active layer down then lifts "Background" above it. */
  lemma RemoveOnlyThenAdd(st: Stack, w: nat, h: nat)
    requires Valid(st) && |st.layers| == 1
    ensures var added := Add(Remove(st, w, h), Layer(DefaultName(1), Blank(w, h, Transparent)));
            && added.layers == [Layer("Layer 2", Blank(w, h, Transparent)), Background(w, h)]
            && ActiveLayer(added) == Background(w, h)
            && MoveDown(added).layers == [Background(w, h), Layer("Layer 2", Blank(w, h, Transparent))]
  {
    var removed := Remove(st, w, h);
    assert removed == Stack([Background(w, h)], -1);
    assert DefaultName(1) == "Layer 2";
  }
}
