/** The anti-cheat heuristic `detect_hardcoded_return`: does the source text
    of the aggregate operation return, literally or through one variable,
    the printed form of the table it produced? */
module AntiCheat {
  import opened Wrappers
  import opened Text

  /** One match of the assignment pattern `(\w+)=([\[\(\{].*?[\]\)\}])` in the
      normalised source: a variable name and the bracketed value bound to it. */
  datatype Assignment = Assignment(name: string, value: string)

  /** The shape every compared string has after normalisation. */
  predicate Normalised(t: string) {
    forall c :: c in t ==> c != ' ' && !IsUpper(c)
  }

  /** Lower-cases, then deletes every space (no stripping). */
  function Squeeze(t: string): (r: string)
    ensures Normalised(r)
    ensures forall c :: c in r && !IsLowerLetter(c) ==> c in t
  {
    var low := Lower(t);
    var r := RemoveChar(low, ' ');
    RemoveCharCounts(low, ' ');
    forall c | c in r ensures c != ' ' && !IsUpper(c) {
      assert multiset(r)[c] > 0;
      var k :| 0 <= k < |low| && low[k] == c;
    }
    forall c | c in r && !IsLowerLetter(c) ensures c in t {
      assert multiset(r)[c] > 0;
      var k :| 0 <= k < |low| && low[k] == c;
      assert t[k] == c;
    }
    r
  }

  /** `inspect.getsource(f).strip().lower().replace(" ", "")`, from the source text. */
  function NormaliseSource(src: string): (r: string)
    ensures Normalised(r)
    ensures forall c :: c in r && !IsLowerLetter(c) ==> c in src
  {
    Squeeze(Strip(src))
  }

  /** `x.replace(" ", "").lower()`: what the indirection check compares. */
  function SpacelessLower(x: string): (r: string)
    ensures Normalised(r)
  {
    var r := Lower(RemoveChar(x, ' '));
    assert forall c :: c in r ==> c != ' ' && !IsUpper(c);
    r
  }

  /** Normalised text is left as it is by SpacelessLower. */
  lemma SpacelessLowerFixes(x: string)
    requires Normalised(x)
    ensures SpacelessLower(x) == x
  {
    var r := SpacelessLower(x);
    RemoveCharAbsent(x, ' ');
    forall k | 0 <= k < |x| ensures r[k] == x[k] {
      assert x[k] in x;
    }
  }

  /** `repr(output).replace(" ", "").lower().replace("'", "\"")`, from the
      printed form: normalised, and without single quotes (QuoteSwapped:
      each one became a double quote). */
  function NormaliseOutput(printed: string): (r: string)
    ensures Normalised(r) && '\'' !in r
  {
    ReplaceChar(SpacelessLower(printed), '\'', '"')
  }

  /** A single quote in the printed form shows up as a double quote in the
      normalised output. */
  lemma QuoteSwapped(printed: string)
    requires '\'' in printed
    ensures '"' in NormaliseOutput(printed)
  {
    var spaceless := RemoveChar(printed, ' ');
    RemoveCharCounts(printed, ' ');
    assert multiset(spaceless)['\''] > 0;
    var k :| 0 <= k < |spaceless| && spaceless[k] == '\'';
    assert SpacelessLower(printed)[k] == '\'';
    assert NormaliseOutput(printed)[k] == '"';
  }

  /** The direct check on the normalised source `s`: `"return" + cleaned_output in source`. */
  predicate DirectReturn(s: string, printed: string) {
    Contains(s, "return" + NormaliseOutput(printed))
  }

  /** The test the loop applies to one assignment; the printed form is
      compared WITHOUT the quote swap. */
  predicate ReturnsAssigned(s: string, printed: string, a: Assignment) {
    SpacelessLower(printed) == SpacelessLower(a.value) && Contains(s, "return" + a.name)
  }

  predicate IndirectReturn(s: string, printed: string, assignments: seq<Assignment>) {
    exists k :: 0 <= k < |assignments| && ReturnsAssigned(s, printed, assignments[k])
  }

  /** The verdict of `detect_hardcoded_return`. `source` is `None` when the
      source text cannot be obtained, which the heuristic swallows as
      "not hard-coded"; `findAssignments` stands for the regular-expression
      search over the normalised source. */
  predicate Hardcoded(source: Option<string>, printed: string, findAssignments: string -> seq<Assignment>) {
    match source
    case None => false
    case Some(text) =>
      var s := NormaliseSource(text);
      DirectReturn(s, printed) || IndirectReturn(s, printed, findAssignments(s))
  }

  /** `detect_hardcoded_return(func, expected_output)`: the direct check,
      then the search through the assignments. */
  method DetectHardcodedReturn(source: Option<string>, printed: string, findAssignments: string -> seq<Assignment>)
    returns (flagged: bool)
    ensures flagged <==> Hardcoded(source, printed, findAssignments)
    ensures source.None? ==> !flagged
    ensures source.Some? && DirectReturn(NormaliseSource(source.value), printed) ==> flagged
  {
    if source.None? {
      return false;
    }
    var s := NormaliseSource(source.value);
    var cleaned := NormaliseOutput(printed);
    if Contains(s, "return" + cleaned) {
      return true;
    }
    flagged := FindReturnedAssignment(s, printed, findAssignments(s));
  }

  /** The loop of `detect_hardcoded_return` over the assignments found in the
      normalised source `s`, returning as soon as one qualifies. */
  method FindReturnedAssignment(s: string, printed: string, assignments: seq<Assignment>) returns (found: bool)
    ensures found <==> IndirectReturn(s, printed, assignments)
  {
    for i := 0 to |assignments|
      invariant forall k :: 0 <= k < i ==> !ReturnsAssigned(s, printed, assignments[k])
    {
      var a := assignments[i];
      if SpacelessLower(printed) == SpacelessLower(a.value) && Contains(s, "return" + a.name) {
        return true;
      }
    }
    return false;
  }

  /** A source whose body holds `return <literal>`, where the literal, read
      with spaces left out and in any letter case, is the quote-swapped
      printed output, is flagged: whatever surrounds it, and whatever the
      assignment search finds. */
  lemma LiteralReturnFlagged(before: string, body: string, after: string, printed: string,
                             findAssignments: string -> seq<Assignment>)
    requires body != [] && !IsSpace(body[0]) && !IsSpace(body[|body| - 1])
    requires Squeeze(body) == "return" + NormaliseOutput(printed)
    ensures Hardcoded(Some(before + body + after), printed, findAssignments)
  {
    var i, j := StripAround(before, body, after);
    var x, y := before[i..], after[..j];
    LowerConcat(x + body, y);
    LowerConcat(x, body);
    RemoveCharConcat(Lower(x) + Lower(body), Lower(y), ' ');
    RemoveCharConcat(Lower(x), Lower(body), ' ');
    assert NormaliseSource(before + body + after) == Squeeze(x) + Squeeze(body) + Squeeze(y);
    ContainsMiddle(Squeeze(x), Squeeze(body), Squeeze(y));
  }

  /** Every string the assignment search reports is a piece of the text it searched. */
  predicate FoundInSource(s: string, assignments: seq<Assignment>) {
    forall k :: 0 <= k < |assignments| ==> Contains(s, assignments[k].value)
  }

  /** The indirection check fires only when the printed form itself occurs
      in the normalised source. */
  lemma IndirectNeedsEmbeddedLiteral(s: string, printed: string, assignments: seq<Assignment>)
    requires Normalised(s) && FoundInSource(s, assignments)
    requires IndirectReturn(s, printed, assignments)
    ensures Contains(s, SpacelessLower(printed))
  {
    var k :| 0 <= k < |assignments| && ReturnsAssigned(s, printed, assignments[k]);
    var v := assignments[k].value;
    ContainsChars(s, v);
    SpacelessLowerFixes(v);
  }

  /** No false positive from computation alone: with a search that reports
      pieces of the source, the heuristic flags only a source in which the
      printed output is written out, with or without the quote swap. */
  lemma FlagNeedsEmbeddedLiteral(src: string, printed: string, findAssignments: string -> seq<Assignment>)
    requires FoundInSource(NormaliseSource(src), findAssignments(NormaliseSource(src)))
    requires Hardcoded(Some(src), printed, findAssignments)
    ensures Contains(NormaliseSource(src), NormaliseOutput(printed))
         || Contains(NormaliseSource(src), SpacelessLower(printed))
  {
    var s := NormaliseSource(src);
    if DirectReturn(s, printed) {
      ContainsSplit(s, "return", NormaliseOutput(printed));
    } else {
      IndirectNeedsEmbeddedLiteral(s, printed, findAssignments(s));
    }
  }

  /** The quote swap is applied to the output only: when the printed form
      holds a single quote and the source holds no double quote, the
      direct check cannot fire. */
  lemma SingleQuotedOutputMissesDirect(src: string, printed: string)
    requires '\'' in printed && '"' !in src
    ensures !DirectReturn(NormaliseSource(src), printed)
  {
    var s := NormaliseSource(src);
    var needle := "return" + NormaliseOutput(printed);
    QuoteSwapped(printed);
    assert '"' in needle;
    if Contains(s, needle) {
      ContainsChars(s, needle);
    }
  }

  /** `"return" + var` is a plain substring test: an assignment to `x`
      qualifies as soon as `return` followed by any name starting with `x`
      occurs. */
  lemma ReturnNamePrefixQualifies(s: string, printed: string, assignments: seq<Assignment>, k: nat, rest: string)
    requires k < |assignments| && SpacelessLower(assignments[k].value) == SpacelessLower(printed)
    requires Contains(s, "return" + assignments[k].name + rest)
    ensures IndirectReturn(s, printed, assignments)
  {
    ContainsSplit(s, "return" + assignments[k].name, rest);
    assert ReturnsAssigned(s, printed, assignments[k]);
  }
}
