/**
 * The `--override_flow_names` argument of both `main` functions:
 * `s.split(',') if len(s) > 0 else []`. Pieces are not trimmed.
 */
module OverrideArgs {
  import opened Separated

  const SEPARATOR: char := ','

  /** The list of override flow names built from the argument. */
  function OverrideFlowNames(arg: string): seq<string> {
    if |arg| > 0 then Split(arg, SEPARATOR) else []
  }

  /** The override list is empty exactly when the argument is, and it joins back to the argument. */
  lemma OverrideFlowNamesSpec(arg: string)
    ensures |OverrideFlowNames(arg)| > 0 <==> |arg| > 0
    ensures |arg| > 0 ==> Join(OverrideFlowNames(arg), SEPARATOR) == arg
  {
    SplitJoin(arg, SEPARATOR);
  }

  /** Names are not trimmed: "GetPet, ListPets" overrides "GetPet" and " ListPets", with the space. */
  lemma OverrideNamesKeepSpaces(first: string, second: string)
    requires SEPARATOR !in first && SEPARATOR !in second
    ensures OverrideFlowNames(first + ", " + second) == [first, " " + second]
  {
    var s := first + ", " + second;
    var i := |first|;
    assert s[..i] == first;
    assert s[i + 1..] == " " + second;
    NoSeparatorSplit(" " + second, SEPARATOR);
    SplitAt(s, SEPARATOR, i);
  }
}
