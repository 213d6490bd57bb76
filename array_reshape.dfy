/** The generic ArrayReshapeNode<D>: it flattens each incoming array into its
    elements in logical order and rebuilds it with the configured shape. */
module ArrayReshape {
  import opened Flow
  import opened NdArrays

  const NoConfig := "No config to reshape array."

  /** What the node does with one array once a configuration is held: flatten
      with `from_iter`, then `into_shape` to the configured dimension. */
  function FlattenAndReshape(config: ArrayReshapeNodeConfig, input: NdArray): (r: Result<NdArray, string>)
    requires input.Valid()
    ensures r.Ok? <==> Product(config.dimension) == |input.data|
    ensures r.Ok? ==> r.value.Valid() && r.value.shape == config.dimension && r.value.data == input.data
    ensures r.Err? ==> r.error == IncompatibleShape
  {
    IntoShape(FromIter(input.data), config.dimension)
  }

  /** For an array in standard layout, flattening first changes nothing: the
      result is that of reshaping the array directly. */
  lemma FlattenFirstAgreesWithIntoShape(config: ArrayReshapeNodeConfig, input: NdArray)
    requires input.Valid()
    ensures FlattenAndReshape(config, input) == IntoShape(input, config.dimension)
  {
  }

  /** The node: its inputs are queues of pending messages (front first), its
      output the sequence of arrays sent so far, and configObject the latched
      configuration. */
  class ArrayReshapeNode {
    var arrayInput: seq<NdArray>
    var configInput: seq<ArrayReshapeNodeConfig>
    var arrayOutput: seq<NdArray>
    var configObject: Option<ArrayReshapeNodeConfig>

    /** Every array waiting on the input is well formed. */
    ghost predicate Valid()
      reads this
    {
      forall a :: a in arrayInput ==> a.Valid()
    }

    constructor ()
      ensures Valid()
      ensures arrayInput == [] && configInput == [] && arrayOutput == [] && configObject == None
    {
      arrayInput := [];
      configInput := [];
      arrayOutput := [];
      configObject := None;
    }

    /** One update: a pending configuration replaces the stored one. Without any
        configuration the update fails before the array input is read. With
        one, a pending array is reshaped and sent; a shape mismatch fails the
        update and sends nothing; no pending array is a successful no-op. */
    method OnUpdate() returns (r: Result<(), string>)
      requires Valid()
      modifies this
      ensures Valid()
      ensures configInput == Drop1(old(configInput))
      ensures configObject == if old(configInput) == [] then old(configObject) else Some(old(configInput)[0])
      ensures configObject.None? ==>
        r == Err(NoConfig) && arrayInput == old(arrayInput) && arrayOutput == old(arrayOutput)
      ensures configObject.Some? ==> arrayInput == Drop1(old(arrayInput))
      ensures configObject.Some? && old(arrayInput) == [] ==> r == Ok(()) && arrayOutput == old(arrayOutput)
      ensures configObject.Some? && old(arrayInput) != [] ==>
        var result := FlattenAndReshape(configObject.value, old(arrayInput)[0]);
        && (result.Ok? ==> r == Ok(()) && arrayOutput == old(arrayOutput) + [result.value])
        && (result.Err? ==> r == Err(result.error) && arrayOutput == old(arrayOutput))
    {
      if configInput != [] {
        configObject := Some(configInput[0]);
        configInput := configInput[1..];
      }
      if configObject.None? {
        return Err(NoConfig);
      }
      if arrayInput != [] {
        var input := arrayInput[0];
        arrayInput := arrayInput[1..];
        var newArray := FromIter(input.data);
        match IntoShape(newArray, configObject.value.dimension) {
          case Ok(reshaped) =>
            arrayOutput := arrayOutput + [reshaped];
            return Ok(());
          case Err(e) =>
            return Err(e);
        }
      }
      r := Ok(());
    }
  }
}
