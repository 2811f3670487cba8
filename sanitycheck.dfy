/** pygadgettools/internals/sanity_check.py: a keyword membership check
    and a shape check, each returning None or raising. */
module SanityCheck {
  import opened NdArrays
  import opened Outcomes
  import opened PyStrings
  import IcCheck

  /** The KeyError message naming `sys` and the authorized keywords. */
  function KeywordMessage(sys: string, authorized: seq<string>): string {
    sys + " must be [" + Join(", ", authorized) + "]"
  }

  /** `_check_if_keyword_is_correct(sys, list_authorized)`. */
  function CheckKeyword(sys: string, authorized: seq<string>): (r: Outcome)
    ensures r.Pass? <==> sys in authorized
    ensures r.Fail? ==> r.error == KeyError(KeywordMessage(sys, authorized))
  {
    if sys !in authorized then Fail(KeyError(KeywordMessage(sys, authorized)))
    else Pass
  }

  /** The message names the rejected keyword at its head, ends with the
      closing bracket, and contains the `i`-th authorized keyword. */
  lemma MessageListsKeywords(sys: string, authorized: seq<string>, i: nat)
    requires i < |authorized|
    ensures KeywordMessage(sys, authorized)[..|sys|] == sys
    ensures KeywordMessage(sys, authorized)[|KeywordMessage(sys, authorized)| - 1] == ']'
    ensures exists k :: OccursAt(KeywordMessage(sys, authorized), authorized[i], k)
  {
    var msg := KeywordMessage(sys, authorized);
    var head := sys + " must be [";
    var listed := Join(", ", authorized);
    assert msg == head + listed + "]";
    JoinContains(", ", authorized, i);
    var k :| OccursAt(listed, authorized[i], k);
    assert msg[|head| + k..|head| + k + |authorized[i]|] == listed[k..k + |authorized[i]|];
    assert OccursAt(msg, authorized[i], |head| + k);
    assert msg[..|sys|] == sys;
  }

  /** `_check_dimension(x, dim)` as written: the module never imports
      numpy, so looking up `np` raises NameError on every call. */
  function CheckDimension<T>(x: Array<T>, dim: seq<nat>): (r: Outcome)
    ensures r.Fail? && r.error.NameError?
  {
    Fail(NameError("np"))
  }

  /** The check as written rejects even an array of exactly the required
      shape, which the intended check (write.py's `check_dimension`,
      identical once `np` is bound) accepts. */
  lemma MissingNumpyImport<T>(x: Array<T>)
    ensures CheckDimension(x, x.shape) == Fail(NameError("np"))
    ensures IcCheck.CheckDimension(x, x.shape) == Pass
  {
  }
}
