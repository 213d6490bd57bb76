/** The MaxOutputNode that reports failures as `None` (after printing a message
    to standard error) and panics when asked for the largest element of an empty
    tensor. */
module MaxOutputValue {
  import opened Flow
  import opened ArgMax

  const NoMaxIndexFound := "No max index found"

  /** The class of the largest tensor element, given the class list the node
      holds (None while no class list has been received). */
  function GetMaxOutput(classes: Option<seq<string>>, tensor: seq<real>): (r: Exit<Option<string>>)
    ensures classes.None? ==> r == Returned(None)
    ensures classes.Some? && |tensor| != |classes.value| ==> r == Returned(None)
    ensures r.Panicked? <==> classes.Some? && tensor == [] && classes.value == []
    ensures r.Panicked? ==> r.message == NoMaxIndexFound
    ensures r.Returned? && r.value.Some? <==> classes.Some? && |tensor| == |classes.value| > 0
    ensures r.Returned? && r.value.Some? ==> exists i :: IsLastMax(tensor, i) && r.value.value == classes.value[i]
  {
    match classes
    case None => Returned(None)
    case Some(cs) =>
      if |tensor| != |cs| then Returned(None)
      else
        match MaxBy(tensor)
        case Some(i) => Returned(Some(cs[i]))
        case None => Panicked(NoMaxIndexFound)
  }

  /** The node: its two inputs are queues of pending messages (front first), its
      output the sequence of class names sent so far. */
  class MaxOutputNode {
    var outputTensor: seq<seq<real>>
    var inputClasses: seq<seq<string>>
    var classes: Option<seq<string>>
    var outputClass: seq<string>

    constructor ()
      ensures outputTensor == [] && inputClasses == []
      ensures classes == None && outputClass == []
    {
      outputTensor := [];
      inputClasses := [];
      classes := None;
      outputClass := [];
    }

    /** One update: a pending class list replaces the stored one; a pending
        tensor is classified and, when a class is found, it is sent. The update
        reports success unless the classification panics, which happens after
        both inputs have been read. */
    method OnUpdate() returns (r: Exit<Result<(), string>>)
      modifies this
      ensures inputClasses == Drop1(old(inputClasses))
      ensures classes == if old(inputClasses) == [] then old(classes) else Some(old(inputClasses)[0])
      ensures outputTensor == Drop1(old(outputTensor))
      ensures old(outputTensor) == [] ==> outputClass == old(outputClass) && r == Returned(Ok(()))
      ensures old(outputTensor) != [] ==>
        match GetMaxOutput(classes, old(outputTensor)[0])
        case Panicked(m) => r == Panicked(m) && outputClass == old(outputClass)
        case Returned(None) => r == Returned(Ok(())) && outputClass == old(outputClass)
        case Returned(Some(c)) => r == Returned(Ok(())) && outputClass == old(outputClass) + [c]
    {
      if inputClasses != [] {
        classes := Some(inputClasses[0]);
        inputClasses := inputClasses[1..];
      }
      if outputTensor != [] {
        var tensor := outputTensor[0];
        outputTensor := outputTensor[1..];
        var result := GetMaxOutput(classes, tensor);
        match result {
          case Panicked(m) =>
            return Panicked(m);
          case Returned(Some(c)) =>
            outputClass := outputClass + [c];
          case Returned(None) =>
        }
      }
      r := Returned(Ok(()));
    }
  }

  /** The scenario of the crate's test: the class list arrives on one update,
      the tensor [0.1, 0.5, 0.2] on the next, and "two" is sent. */
  method ShouldGetMaxOutput() returns (actual: seq<string>)
    ensures actual == ["two"]
  {
    var node := new MaxOutputNode();
    var classes := ["one", "two", "three"];
    var tensor := [0.1, 0.5, 0.2];
    node.inputClasses := node.inputClasses + [classes];
    var first := node.OnUpdate();
    node.outputTensor := node.outputTensor + [tensor];
    var second := node.OnUpdate();
    var result := GetMaxOutput(Some(classes), tensor);
    ghost var i :| IsLastMax(tensor, i) && result.value.value == classes[i];
    assert tensor[1] <= tensor[i];
    actual := node.outputClass;
  }
}
