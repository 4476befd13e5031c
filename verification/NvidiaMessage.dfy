/**
  The growing message buffer of the GPU plug-in (mf_plugin_nvidia.c): appends that
  stay inside the buffer and stick at its end once something did not fit, and a
  message that is built again in twice the space until it fits.
  */
module NvidiaMessage {
  import opened Text

  const TYPE: string := "\"type\":\"GPU\""
  const INITIAL: nat := 128

  /** The keys create_JSON_msg asks the configuration for, in its order. */
  const KEYS: seq<string> := [
    "performance_state", "power_usage", "power_limit", "utilization", "encoder_utilization", "decoder_utilization",
    "clock_frequencies", "clock_throttle_reasons", "memory", "memory_BAR1", "L1_cache_ECC_errors",
    "L2_cache_ECC_errors", "memory_ECC_errors", "register_file_ECC_errors", "texture_memory_ECC_errors",
    "PCIe_throughput", "temperature", "fan_speed", "time_throttled"]

  function Concat(texts: seq<string>): string {
    if texts == [] then "" else Concat(texts[..|texts| - 1]) + texts[|texts| - 1]
  }

  /** What the devices answer: the texts to append for a key on the n-th attempt to build the message. */
  type Readings = (nat, nat) -> seq<string>

  type Enabled = nat -> bool

  /** The texts of the first n keys that are switched on. */
  function Segments(r: Readings, on: Enabled, attempt: nat, n: nat): string {
    if n == 0 then "" else Segments(r, on, attempt, n - 1) + if on(n - 1) then Concat(r(attempt, n - 1)) else ""
  }

  /** The complete message of an attempt. */
  function Message(r: Readings, on: Enabled, attempt: nat): string { TYPE + Segments(r, on, attempt, |KEYS|) }

  /**
    The buffer contents after an append: the text so far ends at pos, or the
    buffer is saturated because the text so far does not fit.
    */
  ghost predicate Built(buf: array<char>, pos: nat, s: string)
    reads buf
  {
    if |s| < buf.Length then pos == |s| && Holds(buf[..], 0, s) else pos == buf.Length
  }

  /** append, used once, for the leading type member. */
  method Append(buf: array<char>, pos: nat, msg: string) returns (next: nat)
    requires pos <= buf.Length && NUL !in msg
    modifies buf
    ensures next == if pos + |msg| + 1 < buf.Length then pos + |msg| else buf.Length
    ensures next < buf.Length ==> Holds(buf[..], pos, msg)
    ensures forall i :: 0 <= i < buf.Length && (i < pos || next == buf.Length) ==> buf[i] == old(buf[i])
  {
    if pos + |msg| + 1 < buf.Length {
      for i := 0 to |msg|
        invariant forall k :: 0 <= k < i ==> buf[pos + k] == msg[k]
        invariant forall k :: 0 <= k < pos ==> buf[k] == old(buf[k])
      {
        buf[pos + i] := msg[i];
      }
      buf[pos + |msg|] := NUL;
      assert buf[..][pos..pos + |msg|] == msg;
      next := pos + |msg|;
    } else {
      next := buf.Length;
    }
  }

  /** append_formatted: vsnprintf into the space left, then the same saturation. */
  method AppendFormatted(buf: array<char>, pos: nat, text: string) returns (next: nat)
    requires pos <= buf.Length && buf.Length > 0 && NUL !in text
    modifies buf
    ensures next == if pos + |text| < buf.Length then pos + |text| else buf.Length
    ensures next < buf.Length ==> Holds(buf[..], pos, text)
    ensures next == buf.Length ==> buf[buf.Length - 1] == NUL
    ensures forall i :: 0 <= i < pos && i < buf.Length - 1 ==> buf[i] == old(buf[i])
  {
    var size := buf.Length - pos;
    var stored := if |text| < size then |text| else if size > 0 then size - 1 else 0;
    for i := 0 to stored
      invariant forall k :: 0 <= k < i ==> buf[pos + k] == text[k]
      invariant forall k :: 0 <= k < pos ==> buf[k] == old(buf[k])
    {
      buf[pos + i] := text[i];
    }
    if size > 0 {
      buf[pos + stored] := NUL;
    }
    if pos + |text| < buf.Length {
      assert buf[..][pos..pos + |text|] == text;
      next := pos + |text|;
    } else {
      buf[buf.Length - 1] := NUL;
      next := buf.Length;
    }
  }

  lemma Joined(b: seq<char>, s: string, t: string)
    requires Holds(b, |s|, t) && b[..|s|] == s && NUL !in s
    ensures Holds(b, 0, s + t)
  {
    assert b[0..|s + t|] == b[..|s|] + b[|s|..|s| + |t|];
  }

  /** The texts of one key, one after the other. */
  method AppendAll(buf: array<char>, pos: nat, texts: seq<string>, ghost s: string) returns (next: nat)
    requires buf.Length > 0 && Built(buf, pos, s) && NUL !in s
    requires forall i :: 0 <= i < |texts| ==> NUL !in texts[i]
    modifies buf
    ensures Built(buf, next, s + Concat(texts)) && NUL !in Concat(texts)
  {
    next := pos;
    assert s + "" == s;
    for i := 0 to |texts|
      invariant Built(buf, next, s + Concat(texts[..i])) && NUL !in Concat(texts[..i])
    {
      ghost var done := s + Concat(texts[..i]);
      assert texts[..i + 1][..i] == texts[..i];
      assert s + Concat(texts[..i + 1]) == done + texts[i];
      ghost var b := buf[..];
      assert |done| < buf.Length ==> b[..|done|] == b[0..|done|] == done;
      next := AppendFormatted(buf, next, texts[i]);
      if |done| + |texts[i]| < buf.Length {
        assert buf[..][..|done|] == b[..|done|];
        Joined(buf[..], done, texts[i]);
      }
    }
    assert texts[..|texts|] == texts;
  }

  lemma SegmentsNext(r: Readings, on: Enabled, attempt: nat, n: nat, head: string)
    ensures head + Segments(r, on, attempt, n + 1) ==
            head + Segments(r, on, attempt, n) + if on(n) then Concat(r(attempt, n)) else ""
  {
  }

  /** The texts of the first `keys` keys, behind what the buffer holds already. */
  method AppendKeys(msg: array<char>, pos: nat, r: Readings, on: Enabled, attempt: nat, keys: nat, ghost head: string)
    returns (buf: nat)
    requires msg.Length > 0 && Built(msg, pos, head) && NUL !in head
    requires forall n, i :: 0 <= i < |r(attempt, n)| ==> NUL !in r(attempt, n)[i]
    modifies msg
    ensures Built(msg, buf, head + Segments(r, on, attempt, keys))
  {
    buf := pos;
    ghost var s := head;
    assert head + Segments(r, on, attempt, 0) == head;
    for n := 0 to keys
      invariant Built(msg, buf, s) && NUL !in s && s == head + Segments(r, on, attempt, n)
    {
      hide Segments, Built, Concat;
      SegmentsNext(r, on, attempt, n, head);
      if on(n) {
        buf := AppendAll(msg, buf, r(attempt, n), s);
        s := s + Concat(r(attempt, n));
      } else {
        assert s + "" == s;
      }
    }
  }

  /** Fills the buffer with the type member and the texts of the first `keys` keys. */
  method Build(msg: array<char>, r: Readings, on: Enabled, attempt: nat, keys: nat) returns (buf: nat)
    requires msg.Length >= INITIAL
    requires forall n, i :: 0 <= i < |r(attempt, n)| ==> NUL !in r(attempt, n)[i]
    modifies msg
    ensures Built(msg, buf, TYPE + Segments(r, on, attempt, keys))
  {
    hide Segments;
    buf := Append(msg, 0, TYPE);
    buf := AppendKeys(msg, buf, r, on, attempt, keys, TYPE);
  }

  /** ix lists, in order, exactly the keys below n that are switched on. */
  ghost predicate SwitchedOn(on: Enabled, n: nat, ix: seq<nat>) {
    && (forall i, j :: 0 <= i < j < |ix| ==> ix[i] < ix[j])
    && (forall k: nat :: k in ix <==> k < n && on(k))
  }

  function Texts(r: Readings, attempt: nat, ix: seq<nat>): string {
    if ix == [] then "" else Texts(r, attempt, ix[..|ix| - 1]) + Concat(r(attempt, ix[|ix| - 1]))
  }

  /** The message holds the texts of the keys that are switched on, in the order of the keys, and no others. */
  lemma {:induction false} SegmentsAre(r: Readings, on: Enabled, attempt: nat, n: nat, ix: seq<nat>)
    requires SwitchedOn(on, n, ix)
    ensures Segments(r, on, attempt, n) == Texts(r, attempt, ix)
  {
    hide SwitchedOn;
    if n == 0 {
      NoKeys(on, ix);
    } else {
      OneKeyLess(on, n, ix);
      SegmentsAre(r, on, attempt, n - 1, if on(n - 1) then ix[..|ix| - 1] else ix);
    }
  }

  lemma NoKeys(on: Enabled, ix: seq<nat>)
    requires SwitchedOn(on, 0, ix)
    ensures ix == []
  {
    Members(ix);
  }

  lemma Members(ix: seq<nat>)
    ensures ix == [] || exists k :: k in ix
  {
    assert ix != [] ==> ix[0] in ix;
  }

  lemma OneKeyLess(on: Enabled, n: nat, ix: seq<nat>)
    requires n > 0 && SwitchedOn(on, n, ix)
    ensures on(n - 1) ==> ix != [] && ix[|ix| - 1] == n - 1 && SwitchedOn(on, n - 1, ix[..|ix| - 1])
    ensures !on(n - 1) ==> SwitchedOn(on, n - 1, ix)
  {
    if on(n - 1) {
      LastKey(on, n, ix);
      var init := ix[..|ix| - 1];
      assert ix == init + [n - 1];
      forall k: nat ensures k in init <==> k < n - 1 && on(k) {
        assert k in ix <==> k in init || k == n - 1;
        BelowLast(ix, k);
      }
    }
  }

  lemma LastKey(on: Enabled, n: nat, ix: seq<nat>)
    requires n > 0 && SwitchedOn(on, n, ix) && on(n - 1)
    ensures ix != [] && ix[|ix| - 1] == n - 1
  {
    assert n - 1 in ix;
    LastIsGreatest(ix);
    assert ix[|ix| - 1] in ix;
  }

  lemma LastIsGreatest(ix: seq<nat>)
    requires ix != [] && forall i, j :: 0 <= i < j < |ix| ==> ix[i] < ix[j]
    ensures forall k :: k in ix ==> k <= ix[|ix| - 1]
  {
    forall k | k in ix ensures k <= ix[|ix| - 1] {
      var i :| 0 <= i < |ix| && ix[i] == k;
    }
  }

  lemma BelowLast(ix: seq<nat>, k: nat)
    requires ix != [] && forall i, j :: 0 <= i < j < |ix| ==> ix[i] < ix[j]
    ensures k in ix[..|ix| - 1] ==> k < ix[|ix| - 1]
  {
    if k in ix[..|ix| - 1] {
      var i :| 0 <= i < |ix| - 1 && ix[i] == k;
    }
  }

  /** The complete message, by the keys that are switched on. */
  lemma MessageIs(r: Readings, on: Enabled, attempt: nat, ix: seq<nat>)
    requires SwitchedOn(on, 19, ix)
    ensures Message(r, on, attempt) == "\"type\":\"GPU\"" + Texts(r, attempt, ix)
  {
    SegmentsAre(r, on, attempt, 19, ix);
  }

  function Pow2(k: nat): (p: nat)
    ensures p > 0
  {
    if k == 0 then 1 else 2 * Pow2(k - 1)
  }

  function Max(a: nat, b: nat): nat { if a < b then b else a }

  class Plugin {
    var maxMsgLength: nat
    ghost var discarded: nat      // buffers freed since the start
    ghost var longest: nat        // length of the longest message that overflowed

    /** The capacity doubled once per discarded buffer and never beyond twice the longest overflowing message. */
    ghost predicate Valid()
      reads this
    {
      maxMsgLength == INITIAL * Pow2(discarded) && maxMsgLength <= Max(INITIAL, 2 * longest)
    }

    constructor ()
      ensures Valid() && maxMsgLength == INITIAL && discarded == 0 && longest == 0
    {
      maxMsgLength := INITIAL;
      discarded, longest := 0, 0;
    }

    /**
      create_JSON_msg, from the given attempt on. `bound` is any bound on the length
      of the messages. The result is the complete message of the first attempt whose
      message fits the capacity it is built in.
      */
    method CreateJsonMsg(r: Readings, on: Enabled, attempt: nat, ghost bound: nat) returns (msg: array<char>, used: nat)
      requires Valid()
      requires forall k, n, i :: 0 <= i < |r(k, n)| ==> NUL !in r(k, n)[i]
      requires forall k :: |Message(r, on, k)| <= bound
      modifies this
      ensures Valid() && fresh(msg) && msg.Length == maxMsgLength
      ensures attempt <= used && Holds(msg[..], 0, Message(r, on, used))
      ensures discarded == old(discarded) + (used - attempt)
      ensures forall k :: attempt <= k < used ==> INITIAL * Pow2(old(discarded) + (k - attempt)) <= |Message(r, on, k)| <= longest
      ensures old(longest) <= longest <= Max(old(longest), bound)
      decreases bound + 1 - maxMsgLength
    {
      hide Segments;
      msg := new char[maxMsgLength];
      var buf := Build(msg, r, on, attempt, |KEYS|);
      used := attempt;
      if buf == msg.Length {
        maxMsgLength := maxMsgLength * 2;
        discarded := discarded + 1;
        longest := Max(longest, |Message(r, on, attempt)|);
        msg, used := CreateJsonMsg(r, on, attempt + 1, bound);
      }
    }
  }

  function Log2(n: nat): nat {
    if n <= 1 then 0 else 1 + Log2(n / 2)
  }

  lemma {:induction false} PowBelow(k: nat, n: nat)
    requires Pow2(k) <= n
    ensures k <= Log2(n)
  {
    if k > 0 {
      PowBelow(k - 1, n / 2);
    }
  }

  /**
    Over any number of messages the discarded buffers are at most logarithmic in the longest
    overflowing message; the premise is the invariant of Plugin.
    */
  lemma FewDiscarded(discarded: nat, longest: nat)
    requires INITIAL * Pow2(discarded) <= Max(INITIAL, 2 * longest)
    ensures discarded <= 1 + Log2(longest / INITIAL)
  {
    if discarded > 0 {
      assert Pow2(discarded) == 2 * Pow2(discarded - 1) && Pow2(discarded - 1) > 0;
      PowBelow(discarded - 1, longest / INITIAL);
    }
  }
}
