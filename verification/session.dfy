/**
 A caller's sequence of sends on one stream, each awaited before the next,
 stopping at the first error: frames reach the sink in the caller's order
 and a failed send never leaves a partial frame behind.
 */
module Session {
  import opened Wrappers
  import opened Types
  import opened Foreign
  import opened WsImpl

  method SendInOrder(c: Codec, sink: Sink, wire: seq<Message>, values: seq<Value>)
    returns (result: Result<(), Error>, sent: nat, wire': seq<Message>)
    // `sent` values went through; all of them exactly when the result is Ok
    ensures sent <= |values|
    ensures result.Ok? <==> sent == |values|
    // earlier traffic is untouched; one frame per completed send, plus the failed one if it serialised
    ensures wire <= wire'
    ensures |wire'| == |wire| + sent + (if result.Err? && c.serialize(values[sent]).Ok? then 1 else 0)
    // the i-th new frame is the Text serialisation of the i-th value
    ensures forall i :: 0 <= i < |wire'| - |wire| ==>
              c.serialize(values[i]).Ok? && wire'[|wire| + i] == Text(c.serialize(values[i]).value)
    // each completed send succeeded given the traffic before it
    ensures forall i :: 0 <= i < sent ==> SendJson(c, sink, wire'[..|wire| + i], values[i]).result.Ok?
    // the error returned is that of the first send that failed
    ensures result.Err? ==> result == SendJson(c, sink, wire'[..|wire| + sent], values[sent]).result
  {
    var w := wire;
    var k := 0;
    while k < |values|
      invariant k <= |values|
      invariant wire <= w && |w| == |wire| + k
      invariant forall i :: 0 <= i < k ==>
                  c.serialize(values[i]).Ok? && w[|wire| + i] == Text(c.serialize(values[i]).value)
      invariant forall i :: 0 <= i < k ==> SendJson(c, sink, w[..|wire| + i], values[i]).result.Ok?
    {
      var r := SendJson(c, sink, w, values[k]);
      // each earlier send saw the same traffic before it on the longer wire
      forall i | 0 <= i < k
        ensures SendJson(c, sink, r.wire[..|wire| + i], values[i]).result.Ok?
      {
        assert r.wire[..|wire| + i] == w[..|wire| + i];
      }
      assert r.wire[..|wire| + k] == w;
      if r.result.Err? {
        return r.result, k, r.wire;
      }
      w := r.wire;
      k := k + 1;
    }
    return Ok(()), k, w;
  }
}
