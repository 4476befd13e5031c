/** The selection of the requested channels. */
module ArduinoChannels {

  /** The labels of create_eventset_for_all; one of them ends in a blank. */
  const LABELS: seq<string> := [
    "VDDCR_A", "VDDCV_A", "DRAM_VDD1", "MIPI_VDD_A", "DRAM_VDD2", "DRAM_VDDQ", "DRAM_MVDDQ", "DRAM_MVDDA",
    "USB_VDD330", "USB_VP_VDD", "VDDIO", "VDDIO_B ", "RESERVED", "PLL_AVDD", "VDDCV_V", "MIPI_VDD_V"]

  predicate Distinct(labels: seq<string>) {
    forall i, j :: 0 <= i < j < |labels| ==> labels[i] != labels[j]
  }

  /** filter: copies the value of the channel with the requested label, and leaves other requests alone. */
  method Filter(events: seq<string>, labels: seq<string>, allValues: array<real>, values: array<real>)
    requires |labels| == allValues.Length && |events| <= values.Length && values != allValues
    requires Distinct(labels)
    modifies values
    ensures forall ii, jj :: 0 <= ii < |events| && 0 <= jj < |labels| && events[ii] == labels[jj] ==>
      values[ii] == allValues[jj]
    ensures forall ii :: 0 <= ii < values.Length && (ii < |events| ==> events[ii] !in labels) ==>
      values[ii] == old(values[ii])
  {
    for ii := 0 to |events|
      invariant forall i, jj :: 0 <= i < ii && 0 <= jj < |labels| && events[i] == labels[jj] ==>
        values[i] == allValues[jj]
      invariant forall i :: 0 <= i < values.Length && (i < ii ==> events[i] !in labels) ==>
        values[i] == old(values[i])
    {
      ghost var before := values[..];
      for jj := 0 to |labels|
        invariant forall i :: 0 <= i < values.Length && i != ii ==> values[i] == before[i]
        invariant forall j :: 0 <= j < jj && events[ii] == labels[j] ==> values[ii] == allValues[j]
        invariant events[ii] !in labels[..jj] ==> values[ii] == before[ii]
      {
        if events[ii] == labels[jj] {
          values[ii] := allValues[jj];
        }
      }
      assert labels[..|labels|] == labels;
    }
  }

  /** The metric names that mf_movi_unit_init publishes. */
  const PUBLISHED: seq<string> := [
    "VDDCR_A", "VDDCV_A", "DRAM_VDD1", "MIPI_VDD_A", "DRAM_VDD2", "DRAM_VDDQ", "DRAM_MVDDQ", "DRAM_MVDDA",
    "USB_VDD330", "USB_VP_VDD", "VDDIO", "VDDIO_B", "RESERVED", "PLL_AVDD", "VDDCV_V", "MIPI_VDD_V"]

  predicate EndsInBlank(s: string) { s != [] && s[|s| - 1] == ' ' }

  /** Label i is the published name i, but for a blank at the end of one of them. */
  lemma LabelsFollowNames(i: nat)
    requires i < 16
    ensures |LABELS| == |PUBLISHED| == 16 && LABELS[i] == PUBLISHED[i] + if i == 11 then " " else ""
  {
  }

  /** A published name is a label, and so can be answered, exactly when its own label does not end in a blank. */
  lemma AnsweredIff(i: nat)
    requires i < |LABELS|
    ensures |LABELS| == |PUBLISHED| && (PUBLISHED[i] in LABELS <==> !EndsInBlank(LABELS[i]))
  {
  }

  /** The one published name that no label equals, so that Filter never answers it. */
  lemma UnansweredName()
    ensures |LABELS| == |PUBLISHED| == 16 && Distinct(LABELS)
    ensures forall i :: 0 <= i < 16 ==> (PUBLISHED[i] !in LABELS <==> PUBLISHED[i] == "VDDIO_B")
  {
  }
}
