/** The comparison keys of records whose arguments the canonical printer produced. */
module ToolKeys {
  import opened Utf16
  import opened ToolHistory
  import opened CanonicalJson
  import CanonicalJsonLaws

  function ResultRecord(toolName: Text, input: Json, isError: bool, fingerprint: Text): ToolHistoryRecord {
    ToolHistoryRecord(toolName, StableStringify(input), isError, fingerprint)
  }

  /** Key equality is field-wise equality of the calls, arguments compared up to key order. */
  lemma KeysCompareCalls(name: Text, input: Json, isError: bool, fingerprint: Text,
                         name': Text, input': Json, isError': bool, fingerprint': Text)
    requires NulFree(name) && NulFree(name')
    requires CanonicalJsonLaws.WellFormed(input) && CanonicalJsonLaws.WellFormed(input')
    requires !input.Undefined? && !input'.Undefined?
    ensures Clean(ResultRecord(name, input, isError, fingerprint))
    ensures var a, b := ResultRecord(name, input, isError, fingerprint), ResultRecord(name', input', isError', fingerprint');
            FuzzyKey(a) == FuzzyKey(b) <==> name == name' && CanonicalJsonLaws.Same(input, input')
    ensures var a, b := ResultRecord(name, input, isError, fingerprint), ResultRecord(name', input', isError', fingerprint');
            ExactKey(a) == ExactKey(b) <==>
              (name == name' && CanonicalJsonLaws.Same(input, input') && isError == isError' && fingerprint == fingerprint')
  {
    var a, b := ResultRecord(name, input, isError, fingerprint), ResultRecord(name', input', isError', fingerprint');
    CanonicalJsonLaws.PrintIsPrintable(input);
    CanonicalJsonLaws.PrintIsPrintable(input');
    CanonicalJsonLaws.PrintsAlikeIffSame(input, input');
    ExactKeyIsCollisionFree(a, b);
    FuzzyKeyIsCollisionFree(a, b);
  }
}
