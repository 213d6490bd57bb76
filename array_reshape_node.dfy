/** The ArrayReshapeNode over dynamic-dimensional arrays: it reshapes each
    incoming array in place with the configured shape, and fails when an update
    finds no array to reshape. */
module ArrayReshapeNode {
  import opened Flow
  import opened NdArrays

  const NoConfig := "No config to reshape array."
  const NoArray := "No array given to input."
  const UnwrapNone := "called `Option::unwrap()` on a `None` value"

  /** The `reshape` helper: `into_shape` with the stored dimension. It unwraps
      the stored configuration, so it panics while none is stored. */
  function Reshape(configObject: Option<ArrayReshapeNodeConfig>, input: NdArray): (r: Exit<Result<NdArray, string>>)
    requires input.Valid()
    ensures r.Panicked? <==> configObject.None?
    ensures r.Panicked? ==> r.message == UnwrapNone
    ensures r.Returned? ==> (r.value.Ok? <==> Product(configObject.value.dimension) == |input.data|)
    ensures r.Returned? && r.value.Ok? ==>
      r.value.value.Valid() && r.value.value.shape == configObject.value.dimension && r.value.value.data == input.data
    ensures r.Returned? && r.value.Err? ==> r.value.error == IncompatibleShape
  {
    match configObject
    case None => Panicked(UnwrapNone)
    case Some(config) => Returned(IntoShape(input, config.dimension))
  }

  /** The node: its inputs are queues of pending messages (front first), its
      output the sequence of arrays sent so far, and configObject the latched
      configuration. */
  class ArrayReshapeNode {
    var arrayInput: seq<NdArray>
    var configInput: seq<ArrayReshapeNodeConfig>
    var arrayOutput: seq<NdArray>
    var configObject: Option<ArrayReshapeNodeConfig>

    /** Every array waiting on the input is well formed. */
    ghost predicate Valid()
      reads this
    {
      forall a :: a in arrayInput ==> a.Valid()
    }

    constructor ()
      ensures Valid()
      ensures arrayInput == [] && configInput == [] && arrayOutput == [] && configObject == None
    {
      arrayInput := [];
      configInput := [];
      arrayOutput := [];
      configObject := None;
    }

    /** One update: a pending configuration replaces the stored one. Without any
        configuration the update fails before the array input is read. With
        one, a pending array is reshaped and sent, a shape mismatch fails the
        update and sends nothing, and no pending array fails the update. */
    method OnUpdate() returns (r: Result<(), string>)
      requires Valid()
      modifies this
      ensures Valid()
      ensures configInput == Drop1(old(configInput))
      ensures configObject == if old(configInput) == [] then old(configObject) else Some(old(configInput)[0])
      ensures configObject.None? ==>
        r == Err(NoConfig) && arrayInput == old(arrayInput) && arrayOutput == old(arrayOutput)
      ensures configObject.Some? ==> arrayInput == Drop1(old(arrayInput))
      ensures configObject.Some? && old(arrayInput) == [] ==> r == Err(NoArray) && arrayOutput == old(arrayOutput)
      ensures configObject.Some? && old(arrayInput) != [] ==>
        var result := IntoShape(old(arrayInput)[0], configObject.value.dimension);
        && (result.Ok? ==> r == Ok(()) && arrayOutput == old(arrayOutput) + [result.value])
        && (result.Err? ==> r == Err(result.error) && arrayOutput == old(arrayOutput))
    {
      if configInput != [] {
        configObject := Some(configInput[0]);
        configInput := configInput[1..];
      }
      if configObject.None? {
        return Err(NoConfig);
      }
      if arrayInput != [] {
        var input := arrayInput[0];
        arrayInput := arrayInput[1..];
        match IntoShape(input, configObject.value.dimension) {
          case Ok(reshaped) =>
            arrayOutput := arrayOutput + [reshaped];
            r := Ok(());
          case Err(e) =>
            r := Err(e);
        }
      } else {
        r := Err(NoArray);
      }
    }
  }

  /** An array of zeros of the given shape. */
  function Zeros(shape: seq<nat>): (a: NdArray)
    ensures a.Valid() && a.shape == shape
    ensures forall k :: 0 <= k < |a.data| ==> a.data[k] == 0.0
  {
    NdArray(shape, seq(Product(shape), _ => 0.0))
  }

  /** The scenario of the crate's reshape test: a 3x2x1 array of zeros and the
      configuration [1, 2, 3] are pending; one update sends an array of shape
      [1, 2, 3]. */
  method ShouldReturnReshapedArray() returns (resultShape: seq<nat>)
    ensures resultShape == [1, 2, 3]
  {
    var node := new ArrayReshapeNode();
    node.arrayInput := node.arrayInput + [Zeros([3, 2, 1])];
    node.configInput := node.configInput + [ArrayReshapeNodeConfig([1, 2, 3])];
    assert Product([3, 2, 1]) == 6 && Product([1, 2, 3]) == 6;
    var updateResult := node.OnUpdate();
    assert updateResult == Ok(());
    resultShape := node.arrayOutput[0].shape;
  }
}
