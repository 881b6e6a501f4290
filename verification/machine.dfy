/** The parameter store of the restricted Boltzmann machine: the two bias
    vectors and the weight matrix, fixed in shape at construction. */
module Machines {

  /** A machine with `nVisible` visible and `nHidden` hidden units.
      `b` holds the visible biases, `c` the hidden biases, and `w[i][j]`
      couples visible unit i with hidden unit j. */
  datatype Machine = Machine(nVisible: nat, nHidden: nat, b: seq<real>, c: seq<real>, w: seq<seq<real>>)
  {
    /** Every parameter structure has the dimensions fixed by the unit counts. */
    predicate Valid() {
      && |b| == nVisible
      && |c| == nHidden
      && |w| == nVisible
      && forall i :: 0 <= i < |w| ==> |w[i]| == nHidden
    }
  }

  /** Why construction can fail: a negative size makes `std::vector::resize`
      throw `std::length_error`. */
  datatype ConstructionError = LengthError

  datatype Result<T> = Ok(value: T) | Err(error: ConstructionError)

  /** The sizes the constructor is handed allow the vectors to be sized. */
  predicate SizesAccepted(visibleSize: int, hiddenSize: int) {
    visibleSize >= 0 && hiddenSize >= 0
  }

  /** The normal draw that initialises weight (i, j): draw number
      i * columns + j of the stream, counting from zero in row-major order. */
  function InitialWeight(normals: nat -> real, i: nat, j: nat, columns: nat): real {
    normals(i * columns + j)
  }

  /** The constructor. `normals` stands for the stream of normal(0, 0.01)
      draws, `normals(k)` being the k-th; weight (i, j) takes the draw at
      row-major position i * nHidden + j. */
  function Create(visibleSize: int, hiddenSize: int, normals: nat -> real): (r: Result<Machine>)
    ensures r.Err? <==> !SizesAccepted(visibleSize, hiddenSize)
    ensures r.Ok? ==> r.value.Valid()
    ensures r.Ok? ==> r.value.nVisible == visibleSize && r.value.nHidden == hiddenSize
    ensures r.Ok? ==> forall i :: 0 <= i < visibleSize ==> r.value.b[i] == 0.0
    ensures r.Ok? ==> forall j :: 0 <= j < hiddenSize ==> r.value.c[j] == 0.0
    ensures r.Ok? ==> forall i, j :: 0 <= i < visibleSize && 0 <= j < hiddenSize ==>
                        r.value.w[i][j] == InitialWeight(normals, i, j, hiddenSize)
  {
    if !SizesAccepted(visibleSize, hiddenSize) then Err(LengthError)
    else
      var w := seq(visibleSize, (i: int) requires 0 <= i < visibleSize =>
                 seq(hiddenSize, (j: int) requires 0 <= j < hiddenSize =>
                   InitialWeight(normals, i, j, hiddenSize)));
      Ok(Machine(visibleSize, hiddenSize, seq(visibleSize, _ => 0.0), seq(hiddenSize, _ => 0.0), w))
  }

  /** The constructor as the source writes it: resize and zero `b`, resize and
      zero `c`, then fill `w` row by row from successive normal draws. */
  method Construct(visibleSize: int, hiddenSize: int, normals: nat -> real) returns (r: Result<Machine>)
    ensures r == Create(visibleSize, hiddenSize, normals)
  {
    if !SizesAccepted(visibleSize, hiddenSize) {
      return Err(LengthError);
    }
    var b: seq<real> := [];
    while |b| < visibleSize
      invariant |b| <= visibleSize
      invariant forall i :: 0 <= i < |b| ==> b[i] == 0.0
    {
      b := b + [0.0];
    }
    var c: seq<real> := [];
    while |c| < hiddenSize
      invariant |c| <= hiddenSize
      invariant forall j :: 0 <= j < |c| ==> c[j] == 0.0
    {
      c := c + [0.0];
    }
    var w: seq<seq<real>> := [];
    var k := 0;
    while |w| < visibleSize
      invariant |w| <= visibleSize
      invariant k == |w| * hiddenSize
      invariant forall i :: 0 <= i < |w| ==> |w[i]| == hiddenSize
      invariant forall i, j :: 0 <= i < |w| && 0 <= j < hiddenSize ==>
                  w[i][j] == InitialWeight(normals, i, j, hiddenSize)
    {
      var row: seq<real> := [];
      while |row| < hiddenSize
        invariant |row| <= hiddenSize
        invariant k == |w| * hiddenSize + |row|
        invariant forall j :: 0 <= j < |row| ==> row[j] == InitialWeight(normals, |w|, j, hiddenSize)
      {
        row := row + [normals(k)];
        k := k + 1;
      }
      assert (|w| + 1) * hiddenSize == |w| * hiddenSize + hiddenSize;
      w := w + [row];
    }
    var expected := Create(visibleSize, hiddenSize, normals).value;
    assert b == expected.b;
    assert c == expected.c;
    assert forall i :: 0 <= i < visibleSize ==> w[i] == expected.w[i];
    assert w == expected.w;
    r := Ok(Machine(visibleSize, hiddenSize, b, c, w));
  }
}
