/** The MaxOutputNode of the post-processing nodes: it turns an output tensor into
    the class whose score is largest, reporting failures as `Err` values. */
module PostProcessingMaxOutputValue {
  import opened Flow
  import opened ArgMax

  const NoClassesProvided := "No classes provided"
  const SizeMismatch := "Input tensor and classes need to have the same size!"
  const MaxIndexNotFound := "max index not foutn"

  /** The class of the largest tensor element, given the class list the node
      holds (None while no class list has been received). */
  function GetMaxOutput(classes: Option<seq<string>>, tensor: seq<real>): (r: Result<string, string>)
    ensures classes.None? ==> r == Err(NoClassesProvided)
    ensures classes.Some? && |tensor| != |classes.value| ==> r == Err(SizeMismatch)
    ensures classes.Some? && tensor == [] && classes.value == [] ==> r == Err(MaxIndexNotFound)
    ensures r.Ok? <==> classes.Some? && |tensor| == |classes.value| > 0
    ensures r.Ok? ==> exists i :: IsLastMax(tensor, i) && r.value == classes.value[i]
  {
    match classes
    case None => Err(NoClassesProvided)
    case Some(cs) =>
      if |tensor| != |cs| then Err(SizeMismatch)
      else
        match MaxBy(tensor)
        case Some(i) => Ok(cs[i])
        case None => Err(MaxIndexNotFound)
  }

  /** The node: its two inputs are queues of pending messages (front first), its
      output the sequence of class names sent so far. */
  class MaxOutputNode {
    var outputTensor: seq<seq<real>>
    var inputClasses: seq<seq<string>>
    var classes: Option<seq<string>>
    var outputClass: seq<string>

    constructor ()
      ensures outputTensor == [] && inputClasses == []
      ensures classes == None && outputClass == []
    {
      outputTensor := [];
      inputClasses := [];
      classes := None;
      outputClass := [];
    }

    /** One update: a pending class list replaces the stored one; a pending
        tensor is classified and, on success, its class is sent. A failure is
        dropped, and the update always reports success. */
    method OnUpdate() returns (r: Result<(), string>)
      modifies this
      ensures inputClasses == Drop1(old(inputClasses))
      ensures classes == if old(inputClasses) == [] then old(classes) else Some(old(inputClasses)[0])
      ensures outputTensor == Drop1(old(outputTensor))
      ensures old(outputTensor) == [] ==> outputClass == old(outputClass)
      ensures old(outputTensor) != [] ==>
        var result := GetMaxOutput(classes, old(outputTensor)[0]);
        outputClass == old(outputClass) + (if result.Ok? then [result.value] else [])
      ensures r == Ok(())
    {
      if inputClasses != [] {
        classes := Some(inputClasses[0]);
        inputClasses := inputClasses[1..];
      }
      if outputTensor != [] {
        var tensor := outputTensor[0];
        outputTensor := outputTensor[1..];
        var result := GetMaxOutput(classes, tensor);
        match result {
          case Ok(c) =>
            outputClass := outputClass + [c];
          case Err(_) =>
        }
      }
      r := Ok(());
    }
  }
}
