/** Text operations of the Python services. */
module PythonText {
  /** Python's upper-casing, as far as it can produce the letters of DECLINE. */
  function Upper(s: string): (u: string)
    ensures |u| == |s|
    ensures forall i | 0 <= i < |s| && 'a' <= s[i] <= 'z' :: u[i] as int - 'A' as int == s[i] as int - 'a' as int
    ensures forall i | 0 <= i < |s| && !('a' <= s[i] <= 'z') && s[i] != '\U{0131}' :: u[i] == s[i]
    ensures forall i | 0 <= i < |s| && s[i] == '\U{0131}' :: u[i] == 'I'
  {
    seq(|s|, i requires 0 <= i < |s| =>
      if 'a' <= s[i] <= 'z' then (s[i] as int - 32) as char else if s[i] == '\U{0131}' then 'I' else s[i])
  }

  /** The seven letters of the word, each in either case; the i may also be dotless. */
  predicate SpellsDecline(s: string) {
    && |s| == 7
    && s[0] in {'D', 'd'} && s[1] in {'E', 'e'} && s[2] in {'C', 'c'} && s[3] in {'L', 'l'}
    && s[4] in {'I', 'i', '\U{0131}'} && s[5] in {'N', 'n'} && s[6] in {'E', 'e'}
  }

  lemma UpperIsDeclineIff(s: string)
    ensures Upper(s) == "DECLINE" <==> SpellsDecline(s)
  {
    var u := Upper(s);
    if |s| == 7 {
      assert u == "DECLINE" <==>
             u[0] == 'D' && u[1] == 'E' && u[2] == 'C' && u[3] == 'L' && u[4] == 'I' && u[5] == 'N' && u[6] == 'E';
    }
  }
}
