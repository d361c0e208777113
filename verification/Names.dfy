/** Names after a dollar sign, in command templates and in preprocessor text. */
module Names {
  predicate IsNameChar(c: char) {
    'a' <= c <= 'z' || 'A' <= c <= 'Z' || '0' <= c <= '9' || c == '_'
  }

  /** Length of the longest prefix of name characters. */
  function NameLength(text: string): (n: nat)
    ensures n <= |text| && (forall k :: 0 <= k < n ==> IsNameChar(text[k]))
    ensures n < |text| ==> !IsNameChar(text[n])
  {
    if text != [] && IsNameChar(text[0]) then 1 + NameLength(text[1..]) else 0
  }

  lemma {:induction false} NameLengthOf(name: string, rest: string)
    requires forall i :: 0 <= i < |name| ==> IsNameChar(name[i])
    requires rest == "" || !IsNameChar(rest[0])
    ensures NameLength(name + rest) == |name|
    decreases |name|
  {
    if name == "" {
      assert name + rest == rest;
    } else {
      assert (name + rest)[1..] == name[1..] + rest;
      NameLengthOf(name[1..], rest);
    }
  }
}
