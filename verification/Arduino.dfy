/**
  The serial protocol between the Arduino sketch, which prints frames of sixteen
  channel values for ever, and the plug-in, which decodes whatever part of that
  stream one read returned (MCP3424_Multichannel_MOVIDIUS.ino,
  mf_movidius_arduino_connector.c).
  */
module Arduino {
  import opened Text
  import opened HalvingMean

  const CHANNELS: nat := 16
  const TMP_SIZE: nat := 128
  const BUF_SIZE: nat := 2048

  // ------------------------------------------------------------ the sketch

  /** A `long` of the board has 32 bits. */
  predicate IsLong(n: int) { -0x8000_0000 <= n < 0x8000_0000 }

  datatype Frame = Frame(count: int, values: seq<int>)

  predicate WellFormed(f: Frame) {
    IsLong(f.count) && |f.values| == CHANNELS && forall c :: 0 <= c < CHANNELS ==> IsLong(f.values[c])
  }

  function ValuesText(vs: seq<int>): string {
    if vs == [] then "" else Decimal(vs[0]) + ";" + ValuesText(vs[1..])
  }

  function HeaderText(f: Frame): string { "#" + Decimal(f.count) + ";" }

  function FrameText(f: Frame): string { HeaderText(f) + ValuesText(f.values) }

  function StreamText(frames: seq<Frame>): string {
    if frames == [] then "" else FrameText(frames[0]) + StreamText(frames[1..])
  }

  lemma {:induction false} ValuesTextSnoc(vs: seq<int>, v: int)
    ensures ValuesText(vs + [v]) == ValuesText(vs) + Decimal(v) + ";"
  {
    hide Decimal;
    if vs == [] {
      assert vs + [v] == [v];
    } else {
      assert (vs + [v])[1..] == vs[1..] + [v];
      ValuesTextSnoc(vs[1..], v);
    }
  }

  /** The measurements of one round, chip by chip, up to measurement i of chip j. */
  function Flat(v: array2<int>, j: nat, i: nat): seq<int>
    requires v.Length1 == 4 && j <= v.Length0 && i <= 4 && (i > 0 ==> j < v.Length0)
    reads v
    decreases j, i
  {
    if i > 0 then Flat(v, j, i - 1) + [v[j, i - 1]]
    else if j > 0 then Flat(v, j - 1, 4)
    else []
  }

  /** Measurement i of chip j is the (4j + i)-th of the round. */
  lemma {:induction false} FlatAt(v: array2<int>, j: nat, i: nat)
    requires v.Length1 == 4 && j <= v.Length0 && i <= 4 && (i > 0 ==> j < v.Length0)
    ensures |Flat(v, j, i)| == 4 * j + i
    ensures forall b, a :: 0 <= b < v.Length0 && 0 <= a < 4 && 4 * b + a < 4 * j + i ==> Flat(v, j, i)[4 * b + a] == v[b, a]
    decreases j, i
  {
    if i > 0 {
      FlatAt(v, j, i - 1);
    } else if j > 0 {
      FlatAt(v, j - 1, 4);
    }
  }

  lemma AppendValue(header: string, vs: seq<int>, v: int)
    ensures header + ValuesText(vs) + Decimal(v) + ";" == header + ValuesText(vs + [v])
  {
    hide ValuesText, Decimal;
    ValuesTextSnoc(vs, v);
  }

  /** One round of loop(): the frame of the measurements is printed, value i of chip j in place 4j + i. */
  method PrintFrame(count: int, voltage: array2<int>) returns (stringData: string)
    requires voltage.Length0 == 4 && voltage.Length1 == 4
    ensures exists values: seq<int> :: |values| == 16 && stringData == FrameText(Frame(count, values))
              && forall j, i :: 0 <= j < 4 && 0 <= i < 4 ==> values[4 * j + i] == voltage[j, i]
  {
    FlatAt(voltage, 4, 0);
    stringData := "#" + Decimal(count) + ";";
    ghost var header := stringData;
    for j := 0 to 4
      invariant stringData == header + ValuesText(Flat(voltage, j, 0))
    {
      for i := 0 to 4
        invariant stringData == header + ValuesText(Flat(voltage, j, i))
      {
        AppendValue(header, Flat(voltage, j, i), voltage[j, i]);
        stringData := stringData + Decimal(voltage[j, i]) + ";";
      }
    }
  }

  // ----------------------------------------------------------- the decoder

  /** One number handed to a channel. */
  datatype Sample = Sample(channel: nat, number: int)

  datatype Mode =
    | Seek                                  // looking for '#'
    | SkipCount                             // after '#', looking for ';'
    | Number(channel: nat, len: nat)        // len characters of the channel's number are in tmp

  /** The scan of convert one character at a time; tmp keeps stale characters, as the C buffer does. */
  datatype Decoder = Decoder(mode: Mode, tmp: seq<char>, out: seq<Sample>)

  predicate Valid(d: Decoder) {
    |d.tmp| == TMP_SIZE && (d.mode.Number? ==> d.mode.channel < CHANNELS && d.mode.len <= TMP_SIZE)
  }

  /** The character does not make convert write past the end of tmp. */
  predicate StepFits(d: Decoder, c: char) {
    d.mode.Number? ==> d.mode.len + (if c == '#' then 1 else 0) < TMP_SIZE
  }

  function Step(d: Decoder, c: char): (d': Decoder)
    requires Valid(d) && StepFits(d, c)
    ensures Valid(d') && d.out <= d'.out
  {
    match d.mode
    case Seek => if c == '#' then d.(mode := SkipCount) else d
    case SkipCount => if c == ';' then d.(mode := Number(0, 0)) else d
    case Number(ch, len) =>
      if c == ';' then
        var tmp := d.tmp[len := NUL];
        Decoder(if ch + 1 < CHANNELS then Number(ch + 1, 0) else Seek, tmp, d.out + [Sample(ch, Atoi(tmp))])
      else if c == '#' then
        var tmp := d.tmp[len + 1 := NUL];
        Decoder(Seek, tmp, d.out + [Sample(ch, Atoi(tmp))])
      else
        Decoder(Number(ch, len + 1), d.tmp[len := c], d.out)
  }

  predicate Fits(d: Decoder, s: string)
    requires Valid(d)
    decreases |s|
  {
    s == [] || (StepFits(d, s[0]) && Fits(Step(d, s[0]), s[1..]))
  }

  function Decode(d: Decoder, s: string): (d': Decoder)
    requires Valid(d) && Fits(d, s)
    ensures Valid(d')
    decreases |s|
  {
    if s == [] then d else Decode(Step(d, s[0]), s[1..])
  }

  function Start(tmp: seq<char>): Decoder { Decoder(Seek, tmp, []) }

  /** What one channel receives, in order. */
  function Samples(out: seq<Sample>, ch: nat): seq<int> {
    if out == [] then []
    else Samples(out[..|out| - 1], ch) +
         if out[|out| - 1].channel == ch then [out[|out| - 1].number] else []
  }

  lemma SamplesSnoc(out: seq<Sample>, s: Sample, ch: nat)
    ensures Samples(out + [s], ch) == Samples(out, ch) + if s.channel == ch then [s.number] else []
  {
    assert (out + [s])[..|out|] == out;
  }

  /** The averages and counters of all channels after the samples given so far. */
  ghost predicate Averages(values: seq<real>, counts: seq<int>, out: seq<Sample>, coef: seq<real>) {
    && |values| == |counts| == |coef| == CHANNELS
    && forall ch :: 0 <= ch < CHANNELS ==>
         values[ch] == Average(Samples(out, ch), coef[ch]) && counts[ch] == |Samples(out, ch)|
  }

  lemma AveragesSnoc(values: seq<real>, counts: seq<int>, out: seq<Sample>, coef: seq<real>, s: Sample, v: real)
    requires Averages(values, counts, out, coef) && s.channel < CHANNELS
    requires v == if counts[s.channel] == 0 then Scaled(s.number, coef[s.channel])
                  else (values[s.channel] + Scaled(s.number, coef[s.channel])) / 2.0
    ensures Averages(values[s.channel := v], counts[s.channel := counts[s.channel] + 1], out + [s], coef)
  {
    forall ch | 0 <= ch < CHANNELS
      ensures values[s.channel := v][ch] == Average(Samples(out + [s], ch), coef[ch])
              && counts[s.channel := counts[s.channel] + 1][ch] == |Samples(out + [s], ch)|
    {
      SamplesSnoc(out, s, ch);
      var xs := Samples(out, ch);
      assert xs + [] == xs && (xs + [s.number])[..|xs + [s.number]| - 1] == xs;
    }
  }

  /** Adds a decoded number to its channel. */
  method AddSample(values: array<real>, firstMeasure: array<int>, coef: array<real>, channel: nat, number: int,
                   ghost out: seq<Sample>)
    requires channel < CHANNELS && values != coef
    requires Averages(values[..], firstMeasure[..], out, coef[..])
    modifies values, firstMeasure
    ensures Averages(values[..], firstMeasure[..], out + [Sample(channel, number)], coef[..])
  {
    ghost var v0, c0 := values[..], firstMeasure[..];
    if firstMeasure[channel] == 0 {
      values[channel] := number as real / 1000.0 * coef[channel];
    } else {
      values[channel] := values[channel] + number as real / 1000.0 * coef[channel];
      values[channel] := values[channel] / 2.0;
    }
    firstMeasure[channel] := firstMeasure[channel] + 1;
    AveragesSnoc(v0, c0, out, coef[..], Sample(channel, number), values[channel]);
    assert values[..] == v0[channel := values[channel]];
    assert firstMeasure[..] == c0[channel := c0[channel] + 1];
  }

  /** At position pos of the window w the scan is in state d and will end in state final. */
  ghost predicate Scanning(d: Decoder, w: string, pos: nat, final: Decoder) {
    pos <= |w| && Valid(d) && Fits(d, w[pos..]) && Decode(d, w[pos..]) == final
  }

  lemma ScanNext(d: Decoder, w: string, pos: nat, final: Decoder)
    requires Scanning(d, w, pos, final) && pos < |w|
    ensures StepFits(d, w[pos]) && Scanning(Step(d, w[pos]), w, pos + 1, final)
  {
    assert w[pos..][1..] == w[pos + 1..];
  }

  /** The first inner loop of convert: finds a '#' and then the ';' behind the frame count. */
  method SeekFrame(arduinoOutput: array<char>, length: nat, pos: nat, ghost d0: Decoder, ghost final: Decoder)
    returns (currentPos: nat, ghost d: Decoder)
    requires length <= arduinoOutput.Length
    requires d0.mode == Seek && Scanning(d0, arduinoOutput[..length], pos, final)
    ensures Scanning(d, arduinoOutput[..length], currentPos, final)
    ensures d == d0.(mode := d.mode) && (currentPos < length ==> d.mode == Number(0, 0))
    ensures pos < length ==> pos < currentPos
  {
    hide Decode, Fits;
    currentPos, d := pos, d0;
    ghost var w := arduinoOutput[..length];
    var found := false;
    while currentPos < length && !found
      invariant pos <= currentPos && Scanning(d, w, currentPos, final) && d == d0.(mode := d.mode)
      invariant if found then d.mode == Number(0, 0) else currentPos < length ==> d.mode == Seek
      invariant found ==> pos < currentPos
      decreases length - currentPos
    {
      ScanNext(d, w, currentPos, final);
      d := Step(d, w[currentPos]);
      if arduinoOutput[currentPos] == '#' {
        currentPos := currentPos + 1;
        while currentPos < length && !found
          invariant pos < currentPos && Scanning(d, w, currentPos, final) && d == d0.(mode := d.mode)
          invariant d.mode == if found then Number(0, 0) else SkipCount
          decreases length - currentPos, !found
        {
          ScanNext(d, w, currentPos, final);
          d := Step(d, w[currentPos]);
          if arduinoOutput[currentPos] == ';' {
            found := true;
          }
          currentPos := currentPos + 1;
        }
      } else {
        currentPos := currentPos + 1;
      }
    }
  }

  /** The second inner loop of convert: reads numbers until the frame is complete or a '#' cuts it. */
  method ReadNumbers(values: array<real>, firstMeasure: array<int>, arduinoOutput: array<char>, length: nat,
                     coef: array<real>, tmp: array<char>, pos: nat, ghost d0: Decoder, ghost final: Decoder)
    returns (currentPos: nat, ghost d: Decoder)
    requires length <= arduinoOutput.Length && tmp != arduinoOutput && values != coef
    requires Scanning(d0, arduinoOutput[..length], pos, final) && tmp[..] == d0.tmp
    requires pos < length ==> d0.mode == Number(0, 0)
    requires Averages(values[..], firstMeasure[..], d0.out, coef[..])
    modifies values, firstMeasure, tmp
    ensures Scanning(d, arduinoOutput[..length], currentPos, final) && tmp[..] == d.tmp
    ensures pos <= currentPos && (currentPos < length ==> d.mode == Seek)
    ensures Averages(values[..], firstMeasure[..], d.out, coef[..])
  {
    currentPos, d := pos, d0;
    ghost var w := arduinoOutput[..length];
    var found, found2 := false, false;
    var currentNumpos, channel := 0, 0;
    while currentPos < length && !found2
      invariant pos <= currentPos && Scanning(d, w, currentPos, final) && !found
      invariant arduinoOutput[..length] == w && tmp[..] == d.tmp
      invariant currentPos < length ==> d.mode == if found2 then Seek else Number(channel, currentNumpos)
      invariant Averages(values[..], firstMeasure[..], d.out, coef[..])
      decreases length - currentPos
    {
      var cr := arduinoOutput[currentPos];
      ghost var out := d.out;
      ScanNext(d, w, currentPos, final);
      d := Step(d, w[currentPos]);
      if cr == ';' {
        currentPos := currentPos + 1;
        tmp[currentNumpos] := NUL;
        currentNumpos := 0;
        found := true;
      } else if cr == '#' {
        found2 := true;
        currentPos := currentPos + 1;
        tmp[currentNumpos + 1] := NUL;
        currentNumpos := 0;
        found := true;
      } else {
        tmp[currentNumpos] := arduinoOutput[currentPos];
        currentPos := currentPos + 1;
        currentNumpos := currentNumpos + 1;
      }
      if found {
        AddSample(values, firstMeasure, coef, channel, Atoi(tmp[..]), out);
        currentNumpos := 0;
        found := false;
        channel := channel + 1;
        if channel > CHANNELS - 1 {
          found2 := true;
        }
      }
    }
  }

  /**
    convert: decodes the first `length` characters of the read buffer into the
    channel averages. `tmp` stands for the uninitialised local buffer.
    */
  method Convert(values: array<real>, arduinoOutput: array<char>, length: nat, coef: array<real>, tmp: array<char>)
    requires values.Length == CHANNELS && coef.Length == CHANNELS && values != coef
    requires arduinoOutput.Length == BUF_SIZE && length < BUF_SIZE && tmp.Length == TMP_SIZE && tmp != arduinoOutput
    requires Fits(Start(tmp[..]), arduinoOutput[..length])
    modifies values, arduinoOutput, tmp
    ensures forall ch :: 0 <= ch < CHANNELS ==>
      var xs := Samples(old(Decode(Start(tmp[..]), arduinoOutput[..length])).out, ch);
      values[ch] == Average(xs, coef[ch]) && Converted(values[ch], xs, coef[ch])
    ensures arduinoOutput[..length] == old(arduinoOutput[..length])
  {
    ghost var w := arduinoOutput[..length];
    ghost var d := Start(tmp[..]);
    ghost var final := Decode(d, w);
    arduinoOutput[BUF_SIZE - 1] := NUL;
    assert w == arduinoOutput[..length];
    var firstMeasure := new int[CHANNELS];
    for ii := 0 to CHANNELS
      invariant forall k :: 0 <= k < ii ==> values[k] == 0.0 && firstMeasure[k] == 0
      invariant tmp[..] == d.tmp && arduinoOutput[..length] == w
    {
      values[ii] := 0.0;
      firstMeasure[ii] := 0;
    }
    assert w[0..] == w;
    var currentPos := 0;
    while currentPos < length
      invariant Scanning(d, w, currentPos, final) && (currentPos < length ==> d.mode == Seek)
      invariant arduinoOutput[..length] == w && tmp[..] == d.tmp
      invariant Averages(values[..], firstMeasure[..], d.out, coef[..])
    {
      currentPos, d := SeekFrame(arduinoOutput, length, currentPos, d, final);
      currentPos, d := ReadNumbers(values, firstMeasure, arduinoOutput, length, coef, tmp, currentPos, d, final);
    }
    assert d.out == final.out;
    forall ch | 0 <= ch < CHANNELS ensures Converted(values[ch], Samples(final.out, ch), coef[ch]) {
      AverageConverts(Samples(final.out, ch), coef[ch]);
    }
  }
}
