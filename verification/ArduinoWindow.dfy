/**
  The window theorem: whatever contiguous part of the sketch's stream a read
  returns, the decoder hands each channel exactly the complete values in it.
  */
module ArduinoWindow {
  import opened Text
  import opened Sequences
  import opened Arduino
  import opened HalvingMean

  // ------------------------------------------------- what a window contains

  /** Offset in the frame's text just behind the ';' of value c. */
  function EndOf(f: Frame, c: nat): nat
    requires c < |f.values|
  {
    |HeaderText(f)| + |ValuesText(f.values[..c + 1])|
  }

  /** The values of a frame printed at position base, from channel c on, whose ';' lies before hi. */
  function Complete(f: Frame, base: nat, hi: nat, c: nat): seq<Sample>
    requires c <= |f.values|
    decreases |f.values| - c
  {
    if c == |f.values| then []
    else (if base + EndOf(f, c) <= hi then [Sample(c, f.values[c])] else []) + Complete(f, base, hi, c + 1)
  }

  /** The values, in printing order, whose frame's '#' and own ';' both lie in [lo, hi) of the stream. */
  function InWindow(frames: seq<Frame>, base: nat, lo: nat, hi: nat): seq<Sample> {
    if frames == [] then []
    else (if lo <= base then Complete(frames[0], base, hi, 0) else [])
         + InWindow(frames[1..], base + |FrameText(frames[0])|, lo, hi)
  }

  // ----------------------------------------------------- runs of the decoder

  lemma {:induction false} DecodeConcat(d: Decoder, a: string, b: string)
    requires Valid(d) && Fits(d, a) && Fits(Decode(d, a), b)
    ensures Fits(d, a + b) && Decode(d, a + b) == Decode(Decode(d, a), b)
    decreases |a|
  {
    if a == [] {
      assert a + b == b;
    } else {
      assert (a + b)[1..] == a[1..] + b;
      DecodeConcat(Step(d, a[0]), a[1..], b);
    }
  }

  /** Decoding a prefix that reaches into the second of two texts. */
  lemma DecodePrefix(d: Decoder, a: string, b: string, m: nat)
    requires Valid(d) && |a| <= m <= |a| + |b|
    requires Fits(d, a) && Fits(Decode(d, a), b[..m - |a|])
    ensures Fits(d, (a + b)[..m]) && Decode(d, (a + b)[..m]) == Decode(Decode(d, a), b[..m - |a|])
  {
    PrefixOf(a, b, m);
    DecodeConcat(d, a, b[..m - |a|]);
  }

  lemma NothingToDecode(d: Decoder)
    requires Valid(d)
    ensures Fits(d, []) && Decode(d, []) == d
  {
  }

  /** Without a '#' the search for a frame goes on. */
  lemma {:induction false} SeekRun(d: Decoder, s: string)
    requires Valid(d) && d.mode == Seek && '#' !in s
    ensures Fits(d, s) && Decode(d, s) == d
  {
    if s != [] {
      SeekRun(d, s[1..]);
    }
  }

  /** Without a ';' the search for the end of the count goes on. */
  lemma {:induction false} SkipRun(d: Decoder, s: string)
    requires Valid(d) && d.mode == SkipCount && ';' !in s
    ensures Fits(d, s) && Decode(d, s) == d
  {
    if s != [] {
      SkipRun(d, s[1..]);
    }
  }

  predicate Plain(s: string) { '#' !in s && ';' !in s }

  /** Characters of a number go to tmp one behind the other. */
  lemma {:induction false} NumberRun(d: Decoder, s: string)
    requires Valid(d) && d.mode.Number? && Plain(s) && d.mode.len + |s| < TMP_SIZE
    ensures Fits(d, s)
    ensures var d' := Decode(d, s);
            && d'.mode == Number(d.mode.channel, d.mode.len + |s|) && d'.out == d.out
            && d'.tmp[..d'.mode.len] == d.tmp[..d.mode.len] + s
    decreases |s|
  {
    if s != [] {
      var d1 := Step(d, s[0]);
      NumberRun(d1, s[1..]);
      assert d1.tmp[..d1.mode.len] == d.tmp[..d.mode.len] + [s[0]];
      assert s == [s[0]] + s[1..];
    }
  }

  lemma DecimalPlain(n: int)
    ensures Plain(Decimal(n))
  {
    if '#' in Decimal(n) { DecimalChars(n, '#'); }
    if ';' in Decimal(n) { DecimalChars(n, ';'); }
  }

  lemma DecimalLength(n: int)
    requires IsLong(n)
    ensures |Decimal(n)| <= 11
  {
    assert Pow10(10) == 100_0000_0000;
    DigitsLength(if n < 0 then -n else n, 10);
  }

  /** The state behind channel c. */
  function After(c: nat): Mode { if c + 1 < CHANNELS then Number(c + 1, 0) else Seek }

  /** A printed value and its ';' are decoded to the value. */
  lemma ValueRun(d: Decoder, v: int)
    requires Valid(d) && d.mode.Number? && d.mode.len == 0 && IsLong(v)
    ensures Fits(d, Decimal(v) + ";")
    ensures var d' := Decode(d, Decimal(v) + ";");
            d'.mode == After(d.mode.channel) && d'.out == d.out + [Sample(d.mode.channel, v)]
  {
    hide Decimal, Atoi, Decode, Fits;
    var s := Decimal(v);
    DecimalPlain(v);
    DecimalLength(v);
    NumberRun(d, s);
    var d1 := Decode(d, s);
    var tmp := d1.tmp[|s| := NUL];
    assert tmp == s + tmp[|s|..];
    AtoiDecimal(v, tmp[|s|..]);
    assert Step(d1, ';') == Decoder(After(d.mode.channel), tmp, d1.out + [Sample(d.mode.channel, v)]);
    OneStep(d1, ';');
    DecodeConcat(d, s, ";");
  }

  lemma OneStep(d: Decoder, c: char)
    requires Valid(d) && StepFits(d, c)
    ensures Fits(d, [c]) && Decode(d, [c]) == Step(d, c)
  {
    assert [c][1..] == [];
  }

  /** A value cut before its ';' contributes nothing. */
  lemma CutValueRun(d: Decoder, v: int, m: nat)
    requires Valid(d) && d.mode.Number? && d.mode.len == 0 && IsLong(v) && m <= |Decimal(v)|
    ensures Fits(d, Decimal(v)[..m]) && Decode(d, Decimal(v)[..m]).out == d.out
  {
    DecimalPlain(v);
    DecimalLength(v);
    NumberRun(d, Decimal(v)[..m]);
  }

  lemma EndNext(f: Frame, c: nat)
    requires c < |f.values|
    ensures |ValuesText(f.values[..c + 1])| == |ValuesText(f.values[..c])| + |Decimal(f.values[c])| + 1
  {
    assert f.values[..c + 1] == f.values[..c] + [f.values[c]];
    ValuesTextSnoc(f.values[..c], f.values[c]);
  }

  /** Once one value of the frame ends behind hi, so do all later ones. */
  lemma {:induction false} NoneComplete(f: Frame, base: nat, hi: nat, c: nat)
    requires c <= |f.values| && base + |HeaderText(f)| + |ValuesText(f.values[..c])| >= hi
    ensures Complete(f, base, hi, c) == []
    decreases |f.values| - c
  {
    if c < |f.values| {
      EndNext(f, c);
      NoneComplete(f, base, hi, c + 1);
    }
  }

  /** The text of the values from channel c on starts with value c. */
  lemma ValuesFrom(f: Frame, c: nat)
    requires c < |f.values|
    ensures ValuesText(f.values[c..]) == (Decimal(f.values[c]) + ";") + ValuesText(f.values[c + 1..])
  {
    assert f.values[c..][1..] == f.values[c + 1..];
  }

  lemma CompleteHead(f: Frame, base: nat, hi: nat, c: nat)
    requires c <= |f.values|
    ensures c == |f.values| ==> Complete(f, base, hi, c) == []
    ensures c < |f.values| && StartOf(f, base, c + 1) <= hi ==>
              Complete(f, base, hi, c) == [Sample(c, f.values[c])] + Complete(f, base, hi, c + 1)
    ensures c < |f.values| && hi < StartOf(f, base, c + 1) ==> Complete(f, base, hi, c) == []
  {
    if c < |f.values| && hi < StartOf(f, base, c + 1) {
      NoneComplete(f, base, hi, c + 1);
    }
  }

  /** Where value c starts in the stream when its frame starts at base. */
  function StartOf(f: Frame, base: nat, c: nat): nat
    requires c <= |f.values|
  {
    base + |HeaderText(f)| + |ValuesText(f.values[..c])|
  }

  lemma CutValue(d: Decoder, f: Frame, base: nat, c: nat, m: nat)
    requires WellFormed(f) && c < CHANNELS && Valid(d) && d.mode == Number(c, 0)
    requires m < |Decimal(f.values[c]) + ";"|
    ensures var s := ValuesText(f.values[c..])[..m];
            && Fits(d, s) && m < |ValuesText(f.values[c..])|
            && Decode(d, s).out == d.out + Complete(f, base, StartOf(f, base, c) + m, c)
  {
    hide HeaderText, Decimal, Complete, Decode, Fits, Step;
    var v := f.values[c];
    ValuesFrom(f, c);
    PrefixOf(Decimal(v) + ";", ValuesText(f.values[c + 1..]), m);
    PrefixOf(Decimal(v), ";", m);
    CutValueRun(d, v, m);
    EndNext(f, c);
    CompleteHead(f, base, StartOf(f, base, c) + m, c);
  }

  /** Decoding the first m characters of the values from channel c on. */
  lemma {:induction false} ValuesRun(d: Decoder, f: Frame, base: nat, c: nat, m: nat)
    requires WellFormed(f) && c <= CHANNELS && Valid(d)
    requires d.mode == if c < CHANNELS then Number(c, 0) else Seek
    requires m <= |ValuesText(f.values[c..])|
    ensures var s := ValuesText(f.values[c..])[..m];
            && Fits(d, s)
            && Decode(d, s).out == d.out + Complete(f, base, StartOf(f, base, c) + m, c)
            && (m == |ValuesText(f.values[c..])| ==> Decode(d, s).mode == Seek)
    decreases CHANNELS - c
  {
    hide HeaderText, Decimal, Complete, Decode, Fits, Step;
    CompleteHead(f, base, StartOf(f, base, c) + m, c);
    if c == CHANNELS {
      assert f.values[c..] == [];
      NothingToDecode(d);
    } else if m < |Decimal(f.values[c]) + ";"| {
      CutValue(d, f, base, c, m);
    } else {
      var token, rest := Decimal(f.values[c]) + ";", ValuesText(f.values[c + 1..]);
      ValueRun(d, f.values[c]);
      EndNext(f, c);
      ValuesFrom(f, c);
      ValuesRun(Decode(d, token), f, base, c + 1, m - |token|);
      DecodePrefix(d, token, rest, m);
    }
  }

  lemma HeaderRun(d: Decoder, f: Frame)
    requires Valid(d) && d.mode == Seek
    ensures Fits(d, HeaderText(f))
    ensures Decode(d, HeaderText(f)) == d.(mode := Number(0, 0))
  {
    var count := Decimal(f.count);
    DecimalPlain(f.count);
    var d1 := d.(mode := SkipCount);
    assert Decode(d, "#") == d1 by {
      assert "#"[1..] == "";
    }
    SkipRun(d1, count);
    DecodeConcat(d, "#", count);
    assert Decode(d1, ";") == d1.(mode := Number(0, 0)) by {
      assert ";"[1..] == "";
    }
    DecodeConcat(d, "#" + count, ";");
  }

  /** The header cut short contributes nothing. */
  lemma CutHeaderRun(d: Decoder, f: Frame, m: nat)
    requires Valid(d) && d.mode == Seek && m < |HeaderText(f)|
    ensures Fits(d, HeaderText(f)[..m]) && Decode(d, HeaderText(f)[..m]).out == d.out
  {
    if m > 0 {
      DecimalPlain(f.count);
      var part := Decimal(f.count)[..m - 1];
      assert HeaderText(f)[..m] == "#" + part;
      assert "#"[1..] == "";
      SkipRun(d.(mode := SkipCount), part);
      DecodeConcat(d, "#", part);
    } else {
      assert HeaderText(f)[..m] == "";
    }
  }

  /** Decoding the first m characters of a frame. */
  lemma FrameRun(d: Decoder, f: Frame, base: nat, m: nat)
    requires WellFormed(f) && Valid(d) && d.mode == Seek && m <= |FrameText(f)|
    ensures Fits(d, FrameText(f)[..m])
    ensures var d' := Decode(d, FrameText(f)[..m]);
            && d'.out == d.out + Complete(f, base, base + m, 0)
            && (m == |FrameText(f)| ==> d'.mode == Seek)
  {
    hide Decode, Fits, HeaderText, Complete, Step;
    var header := HeaderText(f);
    assert f.values[..0] == [] && f.values[0..] == f.values;
    PrefixOf(header, ValuesText(f.values), m);
    if m < |header| {
      assert FrameText(f)[..m] == header[..m];
      CutHeaderRun(d, f, m);
      NoneComplete(f, base, base + m, 0);
    } else {
      HeaderRun(d, f);
      var rest := ValuesText(f.values)[..m - |header|];
      assert FrameText(f)[..m] == header + rest;
      ValuesRun(d.(mode := Number(0, 0)), f, base, 0, m - |header|);
      DecodeConcat(d, header, rest);
    }
  }

  lemma {:induction false} ValuesPlain(vs: seq<int>)
    ensures '#' !in ValuesText(vs)
  {
    if vs != [] {
      DecimalPlain(vs[0]);
      ValuesPlain(vs[1..]);
    }
  }

  /** Behind its first character a frame has no '#'. */
  lemma FrameTail(f: Frame)
    ensures '#' !in FrameText(f)[1..]
  {
    DecimalPlain(f.count);
    ValuesPlain(f.values);
    var count, values := Decimal(f.count) + ";", ValuesText(f.values);
    assert '#' !in count + values;
    assert FrameText(f) == "#" + (count + values);
  }

  /** Values behind hi are not in the window. */
  lemma {:induction false} Beyond(frames: seq<Frame>, base: nat, lo: nat, hi: nat)
    requires hi <= base
    ensures InWindow(frames, base, lo, hi) == []
  {
    if frames != [] {
      assert frames[0].values[..0] == [];
      NoneComplete(frames[0], base, hi, 0);
      Beyond(frames[1..], base + |FrameText(frames[0])|, lo, hi);
    }
  }

  // -------------------------------------------------------- window theorem

  lemma OpenStream(frames: seq<Frame>, base: nat, lo: nat, hi: nat)
    ensures frames == [] ==> StreamText(frames) == "" && InWindow(frames, base, lo, hi) == []
    ensures frames != [] ==>
      && StreamText(frames) == FrameText(frames[0]) + StreamText(frames[1..])
      && InWindow(frames, base, lo, hi) == (if lo <= base then Complete(frames[0], base, hi, 0) else [])
           + InWindow(frames[1..], base + |FrameText(frames[0])|, lo, hi)
  {
  }

  /** Decoding from the start of a frame: the first m characters of the remaining stream. */
  lemma {:induction false} FromFrameStart(d: Decoder, frames: seq<Frame>, base: nat, lo: nat, m: nat)
    requires Valid(d) && d.mode == Seek && lo <= base && m <= |StreamText(frames)|
    requires forall i :: 0 <= i < |frames| ==> WellFormed(frames[i])
    ensures var w := StreamText(frames)[..m];
            Fits(d, w) && Decode(d, w).out == d.out + InWindow(frames, base, lo, base + m)
    decreases |frames|
  {
    hide FrameText, StreamText, InWindow, Decode, Fits, Step, Complete;
    OpenStream(frames, base, lo, base + m);
    if frames == [] {
      NothingToDecode(d);
    } else {
      var text, rest := FrameText(frames[0]), frames[1..];
      PrefixOf(text, StreamText(rest), m);
      if m <= |text| {
        FrameRun(d, frames[0], base, m);
        Beyond(rest, base + |text|, lo, base + m);
      } else {
        FrameRun(d, frames[0], base, |text|);
        assert text[..|text|] == text;
        FullFrame(frames[0], base, base + |text|, base + m, 0);
        FromFrameStart(Decode(d, text), rest, base + |text|, lo, m - |text|);
        DecodePrefix(d, text, StreamText(rest), m);
      }
    }
  }

  /** A frame that ends in the window is complete, wherever the window ends behind it. */
  lemma {:induction false} FullFrame(f: Frame, base: nat, hi: nat, hi': nat, c: nat)
    requires c <= |f.values| && base + |FrameText(f)| <= hi && hi <= hi'
    ensures Complete(f, base, hi, c) == Complete(f, base, hi', c)
    decreases |f.values| - c
  {
    hide HeaderText, ValuesText;
    if c < |f.values| {
      EndWithin(f, c + 1);
      FullFrame(f, base, hi, hi', c + 1);
    }
  }

  lemma {:induction false} EndWithin(f: Frame, c: nat)
    requires c <= |f.values|
    ensures |ValuesText(f.values[..c])| <= |ValuesText(f.values)|
    decreases |f.values| - c
  {
    if c < |f.values| {
      EndNext(f, c);
      EndWithin(f, c + 1);
    } else {
      assert f.values[..c] == f.values;
    }
  }

  lemma NoneWithin(text: string, lo: nat, hi: nat)
    requires 1 <= lo <= hi <= |text| && '#' !in text[1..]
    ensures '#' !in text[lo..hi]
  {
    forall i | lo <= i < hi ensures text[i] != '#' {
      assert text[i] == text[1..][i - 1];
    }
  }

  /** The window ends in the frame it starts in: it has no '#'. */
  lemma InsideFrame(d: Decoder, f: Frame, lo: nat, hi: nat)
    requires Valid(d) && d.mode == Seek && 1 <= lo <= hi <= |FrameText(f)|
    ensures Fits(d, FrameText(f)[lo..hi]) && Decode(d, FrameText(f)[lo..hi]) == d
  {
    hide HeaderText;
    FrameTail(f);
    NoneWithin(FrameText(f), lo, hi);
    SeekRun(d, FrameText(f)[lo..hi]);
  }

  /** The window starts inside a frame and ends behind it. */
  lemma FromInside(d: Decoder, f: Frame, rest: seq<Frame>, base: nat, lo: nat, hi: nat)
    requires Valid(d) && d.mode == Seek && base < lo < base + |FrameText(f)| <= hi
    requires hi <= base + |FrameText(f)| + |StreamText(rest)|
    requires forall i :: 0 <= i < |rest| ==> WellFormed(rest[i])
    ensures var w := FrameText(f)[lo - base..] + StreamText(rest)[..hi - base - |FrameText(f)|];
            Fits(d, w) && Decode(d, w).out == d.out + InWindow(rest, base + |FrameText(f)|, lo, hi)
  {
    hide FrameText, Decode, Fits, Step, Complete;
    var text := FrameText(f);
    var next := base + |text|;
    assert text[lo - base..] == text[lo - base..|text|];
    InsideFrame(d, f, lo - base, |text|);
    FromFrameStart(d, rest, next, lo, hi - next);
    DecodeConcat(d, text[lo - base..], StreamText(rest)[..hi - next]);
  }

  lemma Unfolded(frames: seq<Frame>, base: nat, lo: nat, hi: nat)
    ensures frames == [] ==> StreamText(frames) == []
    ensures frames != [] ==> StreamText(frames) == FrameText(frames[0]) + StreamText(frames[1..])
    ensures frames != [] && base < lo ==>
              InWindow(frames, base, lo, hi) == InWindow(frames[1..], base + |FrameText(frames[0])|, lo, hi)
  {
  }

  /** Skips to the frame in which the window starts. */
  lemma {:induction false} WindowRun(d: Decoder, frames: seq<Frame>, base: nat, lo: nat, hi: nat)
    requires Valid(d) && d.mode == Seek && base <= lo <= hi <= base + |StreamText(frames)|
    requires forall i :: 0 <= i < |frames| ==> WellFormed(frames[i])
    ensures var w := StreamText(frames)[lo - base..hi - base];
            Fits(d, w) && Decode(d, w).out == d.out + InWindow(frames, base, lo, hi)
    decreases |frames|
  {
    hide FrameText, StreamText, InWindow, Decode, Fits, Step, WellFormed;
    Unfolded(frames, base, lo, hi);
    if lo == base {
      FromFrameStart(d, frames, base, lo, hi - base);
    } else {
      var f, rest := frames[0], frames[1..];
      var next := base + |FrameText(f)|;
      SliceOf(FrameText(f), StreamText(rest), lo - base, hi - base);
      if hi <= next {
        InsideFrame(d, f, lo - base, hi - base);
        Beyond(rest, next, lo, hi);
      } else if lo < next {
        FromInside(d, f, rest, base, lo, hi);
      } else {
        WindowRun(d, rest, next, lo, hi);
      }
    }
  }

  /**
    For every stretch [lo, hi) of what the sketch prints and whatever its scratch
    buffer held before, convert never overruns that buffer and the numbers it hands
    out are exactly the printed values whose frame's '#' and whose own ';' lie in
    the stretch, in printing order: a cut frame at the start and a cut number at
    the end contribute nothing.
    */
  lemma WindowTheorem(frames: seq<Frame>, lo: nat, hi: nat, tmp: seq<char>)
    requires forall i :: 0 <= i < |frames| ==> WellFormed(frames[i])
    requires lo <= hi <= |StreamText(frames)| && |tmp| == TMP_SIZE
    ensures Fits(Start(tmp), StreamText(frames)[lo..hi])
    ensures Decode(Start(tmp), StreamText(frames)[lo..hi]).out == InWindow(frames, 0, lo, hi)
  {
    hide Decode, Fits, InWindow, StreamText, Step;
    WindowRun(Start(tmp), frames, 0, lo, hi);
  }

  /** The values of channel c in the window. */
  function ChannelInWindow(frames: seq<Frame>, base: nat, lo: nat, hi: nat, c: nat): seq<int>
    requires c < CHANNELS && forall i :: 0 <= i < |frames| ==> WellFormed(frames[i])
  {
    if frames == [] then []
    else assert WellFormed(frames[0]);
         (if lo <= base && base + EndOf(frames[0], c) <= hi then [frames[0].values[c]] else [])
         + ChannelInWindow(frames[1..], base + |FrameText(frames[0])|, lo, hi, c)
  }

  lemma {:induction false} SamplesConcat(a: seq<Sample>, b: seq<Sample>, c: nat)
    ensures Samples(a + b, c) == Samples(a, c) + Samples(b, c)
  {
    if b == [] {
      assert a + b == a;
    } else {
      var last := |b| - 1;
      assert a + b == (a + b[..last]) + [b[last]] && b == b[..last] + [b[last]];
      SamplesConcat(a, b[..last], c);
      SamplesSnoc(a + b[..last], b[last], c);
      SamplesSnoc(b[..last], b[last], c);
    }
  }

  lemma {:induction false} CompleteChannel(f: Frame, base: nat, hi: nat, from: nat, c: nat)
    requires from <= |f.values| && c < |f.values|
    ensures Samples(Complete(f, base, hi, from), c) ==
            if from <= c && base + EndOf(f, c) <= hi then [f.values[c]] else []
    decreases |f.values| - from
  {
    hide HeaderText, EndOf, Samples;
    NoSamples(c);
    if from < |f.values| {
      CompleteChannel(f, base, hi, from + 1, c);
      var head := if base + EndOf(f, from) <= hi then [Sample(from, f.values[from])] else [];
      SamplesConcat(head, Complete(f, base, hi, from + 1), c);
      OneSample(Sample(from, f.values[from]), c);
    }
  }

  lemma OneSample(x: Sample, c: nat)
    ensures Samples([x], c) == if x.channel == c then [x.number] else []
  {
    assert [x][..0] == [];
  }

  lemma NoSamples(c: nat)
    ensures Samples([], c) == []
  {
  }

  /** Each channel receives its own values of the window, in order, and nothing else. */
  lemma {:induction false} ChannelTheorem(frames: seq<Frame>, base: nat, lo: nat, hi: nat, c: nat)
    requires c < CHANNELS && forall i :: 0 <= i < |frames| ==> WellFormed(frames[i])
    ensures Samples(InWindow(frames, base, lo, hi), c) == ChannelInWindow(frames, base, lo, hi, c)
    decreases |frames|
  {
    hide HeaderText, FrameText, Complete, Samples, EndOf;
    NoSamples(c);
    if frames != [] {
      assert WellFormed(frames[0]);
      var next := base + |FrameText(frames[0])|;
      CompleteChannel(frames[0], base, hi, 0, c);
      ChannelTheorem(frames[1..], next, lo, hi, c);
      var head := if lo <= base then Complete(frames[0], base, hi, 0) else [];
      SamplesConcat(head, InWindow(frames[1..], next, lo, hi), c);
    }
  }

  /**
    The values convert computes from a stretch of the stream are, channel by
    channel, the running averages of the values printed in it.
    */
  lemma ConvertedWindow(frames: seq<Frame>, lo: nat, hi: nat, tmp: seq<char>, c: nat, coef: real)
    requires forall i :: 0 <= i < |frames| ==> WellFormed(frames[i])
    requires lo <= hi <= |StreamText(frames)| && |tmp| == TMP_SIZE && c < CHANNELS
    ensures Fits(Start(tmp), StreamText(frames)[lo..hi])
    ensures Samples(Decode(Start(tmp), StreamText(frames)[lo..hi]).out, c) == ChannelInWindow(frames, 0, lo, hi, c)
    ensures Converted(Average(ChannelInWindow(frames, 0, lo, hi, c), coef), ChannelInWindow(frames, 0, lo, hi, c), coef)
  {
    hide Decode, Fits, InWindow, ChannelInWindow, StreamText, Converted;
    WindowTheorem(frames, lo, hi, tmp);
    ChannelTheorem(frames, 0, lo, hi, c);
    AverageConverts(ChannelInWindow(frames, 0, lo, hi, c), coef);
  }

  /** mf_movi_sample on a stretch of the sketch's output: read, then convert. */
  method ConvertStretch(ghost frames: seq<Frame>, ghost lo: nat, ghost hi: nat, values: array<real>,
                        arduinoOutput: array<char>, length: nat, coef: array<real>, tmp: array<char>)
    requires forall i :: 0 <= i < |frames| ==> WellFormed(frames[i])
    requires lo <= hi <= |StreamText(frames)| && length == hi - lo < BUF_SIZE == arduinoOutput.Length
    requires arduinoOutput[..length] == StreamText(frames)[lo..hi]
    requires values.Length == CHANNELS && coef.Length == CHANNELS && values != coef
    requires tmp.Length == TMP_SIZE && tmp != arduinoOutput
    modifies values, arduinoOutput, tmp
    ensures forall c :: 0 <= c < CHANNELS ==> Converted(values[c], ChannelInWindow(frames, 0, lo, hi, c), coef[c])
  {
    hide Converted, ChannelInWindow, Decode, Fits, InWindow, StreamText;
    ghost var stale, w := tmp[..], StreamText(frames)[lo..hi];
    WindowTheorem(frames, lo, hi, stale);
    Convert(values, arduinoOutput, length, coef, tmp);
    forall c | 0 <= c < CHANNELS ensures Converted(values[c], ChannelInWindow(frames, 0, lo, hi, c), coef[c]) {
      ConvertedWindow(frames, lo, hi, stale, c, coef[c]);
    }
  }

  /**
    A '#' in the middle of a number, as after lost characters: the channel gets the number that the
    digits read so far and one stale character make, the frame of that '#' is skipped, and everything
    behind it is decoded exactly.
    */
  lemma Resync(d: Decoder, f: Frame, frames: seq<Frame>)
    requires Valid(d) && d.mode.Number? && d.mode.len + 1 < TMP_SIZE
    requires WellFormed(f) && forall i :: 0 <= i < |frames| ==> WellFormed(frames[i])
    ensures var w := FrameText(f) + StreamText(frames);
            && Fits(d, w)
            && Decode(d, w).out == d.out + [Sample(d.mode.channel, Atoi(d.tmp[d.mode.len + 1 := NUL]))]
                                   + InWindow(frames, 0, 0, |StreamText(frames)|)
  {
    hide Decode, Fits, StreamText, InWindow, Atoi, FrameText;
    FrameMark(f);
    var d1, tail := Step(d, '#'), FrameText(f)[1..];
    FrameTail(f);
    OneStep(d, '#');
    SeekRun(d1, tail);
    DecodeConcat(d, "#", tail);
    var whole := StreamText(frames);
    assert whole[..|whole|] == whole;
    FromFrameStart(d1, frames, 0, 0, |whole|);
    assert Decode(d, FrameText(f)) == d1;
    DecodeConcat(d, FrameText(f), whole);
  }

  lemma FrameMark(f: Frame)
    ensures FrameText(f) != [] && FrameText(f) == "#" + FrameText(f)[1..]
  {
  }
}
