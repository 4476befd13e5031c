/**
  The streaming mean of the ACME plug-in (mf_acme_connector.c): one callback per
  sample, a counter per device that only channel 0 advances, and a reset only
  after a call that read every device.
  */
module Acme {
  import opened Sequences

  /** One scan: a sample of each channel, in index order. */
  type Scan = seq<int>

  function Abs(x: int): (a: nat)
    ensures a == x || a == -x
  {
    if x < 0 then -x else x
  }

  /** The absolute sample of channel c. */
  function SampleOf(scan: Scan, c: nat): nat { if c < |scan| then Abs(scan[c]) else 0 }

  function Total(scans: seq<Scan>, c: nat): nat {
    if scans == [] then 0 else Total(scans[..|scans| - 1], c) + SampleOf(scans[|scans| - 1], c)
  }

  /** The arithmetic mean of the absolute samples of a channel; 0 when there are none. */
  function Mean(scans: seq<Scan>, c: nat): real {
    if scans == [] then 0.0 else Total(scans, c) as real / |scans| as real
  }

  lemma Quotient(x: real, y: real)
    requires y > 0.0
    ensures x / y * y == x
  {
  }

  lemma UpdateArithmetic(total: real, n: real, x: real)
    requires n > 0.0
    ensures total / n + (x - total / n) / (n + 1.0) == (total + x) / (n + 1.0)
  {
    var m := total / n;
    Quotient(total, n);
    assert m * n == total;
    var r := m + (x - m) / (n + 1.0);
    Quotient(x - m, n + 1.0);
    assert r * (n + 1.0) == m * (n + 1.0) + (x - m) == total + x;
    Quotient(total + x, n + 1.0);
    Cancel(r, (total + x) / (n + 1.0), n + 1.0);
  }

  lemma Cancel(a: real, b: real, y: real)
    requires y > 0.0 && a * y == b * y
    ensures a == b
  {
    assert (a - b) * y == 0.0;
  }

  /** The update of print_sample turns the mean of n samples into that of n + 1. */
  lemma MeanUpdate(scans: seq<Scan>, scan: Scan, c: nat)
    ensures Mean(scans + [scan], c) ==
            Mean(scans, c) + (SampleOf(scan, c) as real - Mean(scans, c)) / (|scans| + 1) as real
  {
    assert (scans + [scan])[..|scans|] == scans;
    var x := SampleOf(scan, c) as real;
    if scans == [] {
      assert Total([], c) == 0;
      Quotient(x, 1.0);
    } else {
      UpdateArithmetic(Total(scans, c) as real, |scans| as real, x);
    }
  }

  // -------------------------------------------------------------- selection

  /** First channel at or behind c with the label, or the number of channels. */
  function FindChannel(row: seq<string>, event: string, c: nat): (k: nat)
    requires c <= |row|
    ensures c <= k <= |row| && (k < |row| ==> row[k] == event)
    ensures forall i :: c <= i < k ==> row[i] != event
    decreases |row| - c
  {
    if c == |row| || row[c] == event then c else FindChannel(row, event, c + 1)
  }

  /** First device at or behind d with a channel of that label, or the number of devices. */
  function FindDevice(labels: seq<seq<string>>, event: string, d: nat): (k: nat)
    requires d <= |labels|
    ensures d <= k <= |labels| && (k < |labels| ==> FindChannel(labels[k], event, 0) < |labels[k]|)
    ensures forall i :: d <= i < k ==> event !in labels[i]
    decreases |labels| - d
  {
    if d == |labels| || FindChannel(labels[d], event, 0) < |labels[d]| then d else FindDevice(labels, event, d + 1)
  }

  class Connector {
    const nbDevices: nat
    const nbChannels: nat
    const labels: seq<seq<string>>
    const scales: seq<seq<real>>
    const value: array2<real>
    const nbSamples: array<nat>
    ghost var scans: seq<seq<Scan>>     // per device, the scans since the last reset

    ghost predicate Shaped(ss: seq<Scan>) {
      forall i :: 0 <= i < |ss| ==> |ss[i]| == nbChannels
    }

    ghost predicate Valid()
      reads this, value, nbSamples
    {
      && value.Length0 == nbDevices && value.Length1 == nbChannels && nbSamples.Length == nbDevices
      && |labels| == |scales| == |scans| == nbDevices
      && (forall d :: 0 <= d < nbDevices ==> |labels[d]| == |scales[d]| == nbChannels && DeviceValid(d))
    }

    /** Counter and values of a device agree with the scans it delivered. */
    ghost predicate DeviceValid(d: nat)
      requires d < nbDevices == |scans| == nbSamples.Length == value.Length0 && value.Length1 == nbChannels
      reads this, value, nbSamples
    {
      && Shaped(scans[d]) && (nbChannels > 0 ==> nbSamples[d] == |scans[d]|)
      && forall c :: 0 <= c < nbChannels ==> value[d, c] == Mean(scans[d], c)
    }

    /** All channels start at zero, as init_ina2xx_channels leaves them. */
    constructor (labels: seq<seq<string>>, scales: seq<seq<real>>, nbChannels: nat)
      requires |labels| == |scales|
      requires forall d :: 0 <= d < |labels| ==> |labels[d]| == |scales[d]| == nbChannels
      ensures Valid() && this.labels == labels && this.scales == scales && this.nbChannels == nbChannels
      ensures scans == seq(|labels|, _ => []) && fresh(value) && fresh(nbSamples)
    {
      this.nbDevices := |labels|;
      this.nbChannels := nbChannels;
      this.labels, this.scales := labels, scales;
      this.value := new real[|labels|, nbChannels]((_, _) => 0.0);
      this.nbSamples := new nat[|labels|](_ => 0);
      this.scans := seq(|labels|, _ => []);
    }

    /** print_sample: one sample of channel j of device i. */
    method PrintSample(i: nat, j: nat, val: int)
      requires i < nbSamples.Length && i < value.Length0 && j < value.Length1
      requires j > 0 ==> nbSamples[i] > 0
      modifies value, nbSamples
      ensures nbSamples[i] == old(nbSamples[i]) + if j == 0 then 1 else 0
      ensures nbSamples[i] > 0
      ensures value[i, j] == old(value[i, j]) + (Abs(val) as real - old(value[i, j])) / nbSamples[i] as real
      ensures forall d :: 0 <= d < nbSamples.Length && d != i ==> nbSamples[d] == old(nbSamples[d])
      ensures forall d, c :: 0 <= d < value.Length0 && 0 <= c < value.Length1 && (d != i || c != j) ==>
        value[d, c] == old(value[d, c])
    {
      if j == 0 {
        nbSamples[i] := nbSamples[i] + 1;
      }
      var vabs := Abs(val);
      value[i, j] := value[i, j] + (vabs as real - value[i, j]) / nbSamples[i] as real;
    }

    /** One scan of a device reaches the callback channel by channel. */
    method ReadScan(d: nat, scan: Scan)
      requires Valid() && d < nbDevices && |scan| == nbChannels
      modifies this`scans, value, nbSamples
      ensures Valid() && scans == old(scans)[d := old(scans)[d] + [scan]]
    {
      ghost var before := scans[d];
      assert DeviceValid(d);
      for c := 0 to nbChannels
        invariant scans == old(scans)
        invariant nbChannels > 0 ==> nbSamples[d] == |before| + if c > 0 then 1 else 0
        invariant forall k :: 0 <= k < c ==> value[d, k] == Mean(before + [scan], k)
        invariant forall k :: c <= k < nbChannels ==> value[d, k] == Mean(before, k)
        invariant forall e :: 0 <= e < nbDevices && e != d ==> nbSamples[e] == old(nbSamples[e])
        invariant forall e, k :: 0 <= e < nbDevices && 0 <= k < nbChannels && e != d ==> value[e, k] == old(value[e, k])
      {
        MeanUpdate(before, scan, c);
        PrintSample(d, c, scan[c]);
      }
      scans := scans[d := before + [scan]];
      forall e | 0 <= e < nbDevices ensures DeviceValid(e) {
        assert old(DeviceValid(e));
      }
    }

    /** iio_buffer_foreach_sample: all scans of one filled buffer. */
    method ReadBuffer(d: nat, buffer: seq<Scan>)
      requires Valid() && d < nbDevices && Shaped(buffer)
      modifies this`scans, value, nbSamples
      ensures Valid() && scans == old(scans)[d := old(scans)[d] + buffer]
    {
      assert old(scans)[d] + [] == old(scans)[d];
      for i := 0 to |buffer|
        invariant Valid() && scans == old(scans)[d := old(scans)[d] + buffer[..i]]
      {
        ReadScan(d, buffer[i]);
        assert old(scans)[d] + buffer[..i + 1] == old(scans)[d] + buffer[..i] + [buffer[i]];
      }
      assert buffer[..|buffer|] == buffer;
    }

    predicate Tables() {
      |labels| == |scales| == nbDevices && forall d :: 0 <= d < nbDevices ==> |labels[d]| == |scales[d]|
    }

    /** What filter reports for a label: mean times scale of the channel that carries it. */
    function Reported(ss: seq<seq<Scan>>, event: string, otherwise: real): real
      requires Tables() && |ss| == nbDevices
    {
      var d := FindDevice(labels, event, 0);
      if d < nbDevices then
        var c := FindChannel(labels[d], event, 0);
        Mean(ss[d], c) * scales[d][c]
      else
        otherwise
    }

    /** Channel c of device d is the first one with the label. */
    predicate Carries(event: string, d: nat, c: nat) {
      && d < |labels| && c < |labels[d]| && labels[d][c] == event && event !in labels[d][..c]
      && forall e :: 0 <= e < d ==> event !in labels[e]
    }

    /** The answer to a request: the mean times the scale of the first channel with the label, or no change. */
    ghost predicate Answers(ss: seq<seq<Scan>>, event: string, was: real, value: real)
      requires Tables() && |ss| == nbDevices
    {
      && (forall d: nat, c: nat :: Carries(event, d, c) ==> value == Mean(ss[d], c) * scales[d][c])
      && ((forall d :: 0 <= d < |labels| ==> event !in labels[d]) ==> value == was)
    }

    lemma ReportedIs(ss: seq<seq<Scan>>, event: string, was: real)
      requires Tables() && |ss| == nbDevices
      ensures Answers(ss, event, was, Reported(ss, event, was))
    {
      Members(labels);
      var d := FindDevice(labels, event, 0);
      if d < nbDevices {
        var c := FindChannel(labels[d], event, 0);
        forall d': nat, c': nat | Carries(event, d', c') ensures d' == d && c' == c {
          assert d' == d;
          Prefixes(labels[d]);
        }
      }
    }

    static lemma Members(rows: seq<seq<string>>)
      ensures forall d, c :: 0 <= d < |rows| && 0 <= c < |rows[d]| ==> rows[d][c] in rows[d]
    {
    }

    static lemma Prefixes(row: seq<string>)
      ensures forall i, n :: 0 <= i < n <= |row| ==> row[i] in row[..n]
    {
      forall i, n | 0 <= i < n <= |row| ensures row[i] in row[..n] {
        assert row[..n][i] == row[i];
      }
    }

    /** filter: for each requested label the mean times the scale, and no change for an unknown label. */
    method Filter(events: seq<string>, values: array<real>)
      requires Valid() && |events| <= values.Length
      modifies values
      ensures forall e :: 0 <= e < |events| ==> values[e] == Reported(scans, events[e], old(values[e]))
      ensures forall e :: |events| <= e < values.Length ==> values[e] == old(values[e])
      ensures forall e :: 0 <= e < |events| ==> Answers(scans, events[e], old(values[e]), values[e])
    {
      hide Answers, Mean;
      for idx := 0 to |events|
        invariant forall e :: 0 <= e < idx ==> values[e] == Reported(scans, events[e], old(values[e]))
        invariant forall e :: idx <= e < values.Length ==> values[e] == old(values[e])
      {
        ghost var before := values[..];
        var deviceIdx := 0;
        while deviceIdx < nbDevices
          invariant deviceIdx <= nbDevices
          invariant FindDevice(labels, events[idx], deviceIdx) == FindDevice(labels, events[idx], 0)
          invariant forall e :: 0 <= e < values.Length ==> values[e] == before[e]
        {
          var channelIdx := 0;
          while channelIdx < nbChannels && labels[deviceIdx][channelIdx] != events[idx]
            invariant channelIdx <= nbChannels
            invariant FindChannel(labels[deviceIdx], events[idx], channelIdx) ==
                      FindChannel(labels[deviceIdx], events[idx], 0)
          {
            channelIdx := channelIdx + 1;
          }
          if channelIdx < nbChannels {
            assert DeviceValid(deviceIdx);
            values[idx] := value[deviceIdx, channelIdx] * scales[deviceIdx][channelIdx];
            break;
          }
          deviceIdx := deviceIdx + 1;
        }
      }
      forall e | 0 <= e < |events| ensures Answers(scans, events[e], old(values[e]), values[e]) {
        ReportedIs(scans, events[e], old(values[e]));
      }
    }

    /** reset_my_channels_value */
    method Reset()
      requires Valid()
      modifies this`scans, value, nbSamples
      ensures Valid() && scans == seq(nbDevices, _ => [])
    {
      for d := 0 to nbDevices
        invariant forall e :: 0 <= e < d ==> nbSamples[e] == 0
        invariant forall e, c :: 0 <= e < d && 0 <= c < nbChannels ==> value[e, c] == 0.0
      {
        nbSamples[d] := 0;
        for c := 0 to nbChannels
          invariant forall e :: 0 <= e <= d ==> nbSamples[e] == 0
          invariant forall e, k :: 0 <= e < d && 0 <= k < nbChannels ==> value[e, k] == 0.0
          invariant forall k :: 0 <= k < c ==> value[d, k] == 0.0
        {
          value[d, c] := 0.0;
        }
      }
      scans := seq(nbDevices, _ => []);
    }

    /** How many devices can be refilled before the first failure. */
    static function Refilled(refills: seq<Option<seq<Scan>>>): (n: nat)
      ensures n <= |refills| && (n < |refills| ==> refills[n].None?)
      ensures forall d :: 0 <= d < n ==> refills[d].Some?
    {
      if refills == [] || refills[0].None? then 0 else 1 + Refilled(refills[1..])
    }

    static lemma {:induction false} RefilledIs(refills: seq<Option<seq<Scan>>>, n: nat)
      requires n <= |refills| && (n < |refills| ==> refills[n].None?)
      requires forall d :: 0 <= d < n ==> refills[d].Some?
      ensures Refilled(refills) == n
    {
      if n > 0 {
        RefilledIs(refills[1..], n - 1);
      }
    }

    /** The scans of each device plus those of the devices refilled before the first failure. */
    static function Extended(ss: seq<seq<Scan>>, refills: seq<Option<seq<Scan>>>): (r: seq<seq<Scan>>)
      requires |ss| == |refills|
      ensures |r| == |ss|
    {
      seq(|ss|, d requires 0 <= d < |ss| => if d < Refilled(refills) then ss[d] + refills[d].value else ss[d])
    }

    /**
      mf_acme_sample: a failed refill returns at once, before filter and reset, so the
      samples read so far stay part of the mean that the next successful call reports.
      */
    method Sample(refills: seq<Option<seq<Scan>>>, events: seq<string>, values: array<real>) returns (ok: bool)
      requires Valid() && |refills| == nbDevices && |events| <= values.Length
      requires forall d :: 0 <= d < nbDevices && refills[d].Some? ==> Shaped(refills[d].value)
      modifies this`scans, value, nbSamples, values
      ensures Valid() && (ok <==> Refilled(refills) == nbDevices)
      ensures ok ==> scans == seq(nbDevices, _ => [])
      ensures ok ==> forall e :: 0 <= e < |events| ==>
        values[e] == Reported(Extended(old(scans), refills), events[e], old(values[e]))
      ensures ok ==> forall e :: 0 <= e < |events| ==>
        Answers(Extended(old(scans), refills), events[e], old(values[e]), values[e])
      ensures !ok ==> values[..] == old(values[..])
      ensures !ok ==> scans == Extended(old(scans), refills)
    {
      for d := 0 to nbDevices
        invariant Valid() && values[..] == old(values[..])
        invariant forall e :: 0 <= e < d ==> refills[e].Some?
        invariant forall e :: 0 <= e < nbDevices ==>
          scans[e] == if e < d then old(scans)[e] + refills[e].value else old(scans)[e]
      {
        if refills[d].None? {
          RefilledIs(refills, d);
          assert scans == Extended(old(scans), refills);
          return false;
        }
        ReadBuffer(d, refills[d].value);
      }
      RefilledIs(refills, nbDevices);
      assert scans == Extended(old(scans), refills);
      Filter(events, values);
      Reset();
      ok := true;
    }
  }
}
