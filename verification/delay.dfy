/** The warm-up gate placed in front of the residual stream: it counts every
    inbound vector, keeps the default empty vector while the count has not
    passed the threshold, and from then on holds the latest inbound vector.
    The held vector is an immutable value, so replacing it can never alter a
    copy handed out earlier. */
module Delay {

  datatype Delay<T> = Delay(data: seq<T>, count: nat, threshold: nat)

  /** The gate has gone active once the counter exceeds the threshold. */
  predicate Active<T>(d: Delay<T>)
  {
    d.count > d.threshold
  }

  /** A fresh gate: nothing counted, nothing held. */
  function New<T>(threshold: nat): (d: Delay<T>)
    ensures d.threshold == threshold && d.count == 0
    ensures d.data == []
    ensures !Active(d)
  {
    Delay([], 0, threshold)
  }

  /** Inbound vector: counted always, kept only once the gate is active. */
  function Read<T>(d: Delay<T>, v: seq<T>): (r: Delay<T>)
    ensures r.count == d.count + 1 && r.threshold == d.threshold
    ensures Active(r) ==> r.data == v
    ensures !Active(r) ==> r.data == d.data
    ensures Active(d) ==> Active(r)
  {
    var count := d.count + 1;
    if count > d.threshold then Delay(v, count, d.threshold)
    else d.(count := count)
  }

  /** Outbound vector: the held one. A pure function of the state, so writing
      leaves the gate as it was. */
  function Write<T>(d: Delay<T>): (r: seq<T>)
    ensures r == d.data
  {
    d.data
  }

  /** The gate after reading `vs` in order. */
  function ReadAll<T>(d: Delay<T>, vs: seq<seq<T>>): Delay<T>
  {
    if |vs| == 0 then d else Read(ReadAll(d, vs[..|vs| - 1]), vs[|vs| - 1])
  }

  /** Starting fresh with threshold `threshold`: after reading `vs` the
      counter equals the number of reads, the output is empty while at most
      `threshold` vectors have been read, and is the last vector read from
      the (threshold+1)-th read on. */
  lemma {:induction false} WarmUpThenEcho<T>(threshold: nat, vs: seq<seq<T>>)
    ensures ReadAll(New<T>(threshold), vs).count == |vs|
    ensures ReadAll(New<T>(threshold), vs).threshold == threshold
    ensures |vs| <= threshold ==> Write(ReadAll(New<T>(threshold), vs)) == []
    ensures |vs| > threshold ==> Write(ReadAll(New<T>(threshold), vs)) == vs[|vs| - 1]
  {
    if |vs| > 0 {
      WarmUpThenEcho(threshold, vs[..|vs| - 1]);
    }
  }

  /** No value is dropped and none is delayed further once active: the j-th
      inbound vector (counting from 0) is the output right after it is read,
      for every j at or past the threshold; before that the output is empty. */
  lemma EchoEachRead<T>(threshold: nat, vs: seq<seq<T>>, j: nat)
    requires j < |vs|
    ensures j < threshold ==> Write(ReadAll(New<T>(threshold), vs[..j + 1])) == []
    ensures j >= threshold ==> Write(ReadAll(New<T>(threshold), vs[..j + 1])) == vs[j]
  {
    WarmUpThenEcho(threshold, vs[..j + 1]);
  }
}
