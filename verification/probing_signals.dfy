/** The fixed probe tables: for each probe its segment, its mode and its
    frequency, stored as three parallel arrays and read back as triples. */
module ProbingSignals {
  import Probe

  /** One probe's configuration. */
  datatype Entry = Entry(sid: Probe.SegmentId, mode: nat, frequency: real)

  datatype ProbingSignals = ProbingSignals(sid: seq<Probe.SegmentId>, mode: seq<nat>, frequency: seq<real>)

  /** Probes of the six outer segments: one mode each, all at 210 Hz. */
  const Outers: ProbingSignals := ProbingSignals(
    [1, 3, 5, 2, 4, 6],
    [7, 40, 105, 192, 318, 460],
    [210.0, 210.0, 210.0, 210.0, 210.0, 210.0])

  /** Probes of the centre segment 7: four modes at four frequencies. */
  const Center: ProbingSignals := ProbingSignals(
    [7, 7, 7, 7],
    [7, 105, 251, 401],
    [80.0, 210.0, 310.0, 133.0])

  function Min3(a: nat, b: nat, c: nat): nat
  {
    if a <= b && a <= c then a else if b <= c then b else c
  }

  /** The triples in order, as the zipped iterators yield them: the
      iteration stops as soon as any of the three arrays runs out. */
  function Entries(ps: ProbingSignals): (r: seq<Entry>)
    ensures |r| == Min3(|ps.sid|, |ps.mode|, |ps.frequency|)
    ensures forall k :: 0 <= k < |r| ==> r[k] == Entry(ps.sid[k], ps.mode[k], ps.frequency[k])
    decreases |ps.sid|
  {
    if |ps.sid| == 0 || |ps.mode| == 0 || |ps.frequency| == 0 then []
    else
      var rest := ProbingSignals(ps.sid[1..], ps.mode[1..], ps.frequency[1..]);
      [Entry(ps.sid[0], ps.mode[0], ps.frequency[0])] + Entries(rest)
  }

  /** All probes: the outer table followed by the centre table. */
  function Configured(): seq<Entry>
  {
    Entries(Outers) + Entries(Center)
  }

  /** The ten configured probes, outer segments first. */
  lemma ConfiguredTable()
    ensures Configured() == [
      Entry(1, 7, 210.0), Entry(3, 40, 210.0), Entry(5, 105, 210.0),
      Entry(2, 192, 210.0), Entry(4, 318, 210.0), Entry(6, 460, 210.0),
      Entry(7, 7, 80.0), Entry(7, 105, 210.0), Entry(7, 251, 310.0), Entry(7, 401, 133.0)]
  {
    var o, c := Entries(Outers), Entries(Center);
    assert |o| == 6 && |c| == 4;
  }

  lemma ConfiguredAt(k: nat)
    requires k < 10
    ensures |Configured()| == 10
    ensures k < 6 ==> Configured()[k] == Entry(Outers.sid[k], Outers.mode[k], Outers.frequency[k])
    ensures k >= 6 ==> Configured()[k] == Entry(Center.sid[k - 6], Center.mode[k - 6], Center.frequency[k - 6])
  {
    assert |Entries(Outers)| == 6 && |Entries(Center)| == 4;
  }

  /** No two configured probes name the same (segment, mode) pair, every
      segment is at most 7 and every mode at most 460. */
  lemma ConfiguredPairsDistinct()
    ensures |Configured()| == 10
    ensures forall j, k :: 0 <= j < k < |Configured()| ==>
      (Configured()[j].sid, Configured()[j].mode) != (Configured()[k].sid, Configured()[k].mode)
    ensures forall k :: 0 <= k < |Configured()| ==> Configured()[k].sid <= 7 && Configured()[k].mode <= 460
  {
    hide *;
    ConfiguredAt(0);
    var c := Configured();
    forall j, k | 0 <= j < k < |c|
      ensures (c[j].sid, c[j].mode) != (c[k].sid, c[k].mode)
    {
      ConfiguredAt(j);
      ConfiguredAt(k);
      if k < 6 {
        OuterSegmentsDistinct(j, k);
      } else if j < 6 {
        OuterBounds(j);
        CenterBounds(k - 6);
      } else {
        CenterModesDistinct(j, k);
      }
    }
    forall k | 0 <= k < |c|
      ensures c[k].sid <= 7 && c[k].mode <= 460
    {
      ConfiguredAt(k);
      if k < 6 {
        OuterBounds(k);
      } else {
        CenterBounds(k - 6);
      }
    }
  }

  lemma OuterSegmentsDistinct(j: nat, k: nat)
    requires j < k < 6
    ensures Outers.sid[j] != Outers.sid[k]
  {
  }

  lemma OuterBounds(k: nat)
    requires k < 6
    ensures Outers.sid[k] <= 6 && Outers.mode[k] <= 460
  {
  }

  lemma CenterBounds(k: nat)
    requires k < 4
    ensures Center.sid[k] == 7 && Center.mode[k] <= 401
  {
  }

  lemma CenterModesDistinct(j: nat, k: nat)
    requires 6 <= j < k < 10
    ensures Center.mode[j - 6] != Center.mode[k - 6]
  {
  }
}
