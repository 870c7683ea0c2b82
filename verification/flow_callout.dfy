/**
 * `flow_callout_template`: the text of a FlowCallout policy that calls the
 * shared flow `sf` under the policy name `fc`, and a reader for that text
 * that recovers both names.
 */
module FlowCallout {
  import opened Wrappers

  const HEAD: string := "<?xml version=\"1.0\" encoding=\"UTF-8\" standalone=\"yes\"?>\n<FlowCallout continueOnError=\"false\" enabled=\"true\" name=\""
  const NAME_TO_DISPLAY: string := "\">\n<DisplayName>"
  const DISPLAY_TO_BUNDLE: string := "</DisplayName>\n<Parameters/>\n<SharedFlowBundle>"
  const TAIL: string := "</SharedFlowBundle>\n</FlowCallout>\n"

  /** The policy text: `fc` in the `name` attribute and in `DisplayName`, `sf` in `SharedFlowBundle`. */
  function FlowCalloutTemplate(fc: string, sf: string): (r: string)
    ensures |r| == |HEAD| + |NAME_TO_DISPLAY| + |DISPLAY_TO_BUNDLE| + |TAIL| + 2 * |fc| + |sf|
  {
    Fill(HEAD, NAME_TO_DISPLAY, DISPLAY_TO_BUNDLE, TAIL, fc, sf)
  }

  /** The longest prefix of `s` without `c`. */
  function TakeUntil(s: string, c: char): (r: string)
    ensures |r| <= |s| && r == s[..|r|] && c !in r
  {
    if s == [] || s[0] == c then [] else [s[0]] + TakeUntil(s[1..], c)
  }

  lemma {:induction false} TakeUntilStopsAt(a: string, b: string, c: char)
    requires c !in a && |b| > 0 && b[0] == c
    ensures TakeUntil(a + b, c) == a
  {
    if a != [] {
      assert (a + b)[1..] == a[1..] + b;
      TakeUntilStopsAt(a[1..], b, c);
    }
  }

  /** A text made of fixed pieces with the policy name twice and the shared flow once between them. */
  function Fill(head: string, mid1: string, mid2: string, tail: string, fc: string, sf: string): string {
    head + (fc + ((mid1 + fc + mid2) + (sf + tail)))
  }

  /** The slices of a text made of five pieces give the pieces back. */
  lemma Pieces(a: string, b: string, c: string, d: string, e: string)
    ensures var r := a + (b + (c + (d + e)));
      && r[..|a|] == a && r[|a|..] == b + (c + (d + e))
      && r[|a| + |b|..|a| + |b| + |c|] == c
      && r[|a| + |b| + |c|..|r| - |e|] == d
      && r[|r| - |e|..] == e
  {
  }

  /** Reads a `Fill` text back, the policy name ending at the first double quote. */
  function Unfill(head: string, mid1: string, mid2: string, tail: string, r: string): Option<(string, string)> {
    if |r| < |head| || r[..|head|] != head then None
    else
      var fc := TakeUntil(r[|head|..], '"');
      var body := |head| + |fc|;
      var k := body + |mid1| + |fc| + |mid2|;
      if k + |tail| <= |r| && r[body..k] == mid1 + fc + mid2 && r[|r| - |tail|..] == tail
      then Some((fc, r[k..|r| - |tail|]))
      else None
  }

  lemma UnfillFill(head: string, mid1: string, mid2: string, tail: string, fc: string, sf: string)
    requires '"' !in fc && |mid1| > 0 && mid1[0] == '"'
    ensures Unfill(head, mid1, mid2, tail, Fill(head, mid1, mid2, tail, fc, sf)) == Some((fc, sf))
  {
    var middle := mid1 + fc + mid2;
    Pieces(head, fc, middle, sf, tail);
    TakeUntilStopsAt(fc, middle + (sf + tail), '"');
  }

  /**
   * Reads a FlowCallout policy text back: the policy name is the `name`
   * attribute (up to the closing quote), which must be repeated in
   * `DisplayName`; the shared flow is what stands between the fixed
   * `SharedFlowBundle` tags.
   */
  function ParseFlowCallout(r: string): Option<(string, string)> {
    Unfill(HEAD, NAME_TO_DISPLAY, DISPLAY_TO_BUNDLE, TAIL, r)
  }

  /** A policy name without a double quote and any shared-flow name are read back from the rendered text. */
  lemma FlowCalloutRoundTrip(fc: string, sf: string)
    requires '"' !in fc
    ensures ParseFlowCallout(FlowCalloutTemplate(fc, sf)) == Some((fc, sf))
  {
    assert FlowCalloutTemplate(fc, sf) == Fill(HEAD, NAME_TO_DISPLAY, DISPLAY_TO_BUNDLE, TAIL, fc, sf);
    UnfillFill(HEAD, NAME_TO_DISPLAY, DISPLAY_TO_BUNDLE, TAIL, fc, sf);
  }

  /** Two policies render to the same text only if they have the same name and the same shared flow. */
  lemma FlowCalloutInjective(fc1: string, sf1: string, fc2: string, sf2: string)
    requires '"' !in fc1 && '"' !in fc2
    ensures FlowCalloutTemplate(fc1, sf1) == FlowCalloutTemplate(fc2, sf2) <==> fc1 == fc2 && sf1 == sf2
  {
    FlowCalloutRoundTrip(fc1, sf1);
    FlowCalloutRoundTrip(fc2, sf2);
  }
}
