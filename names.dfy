/** Validation of type names and field names (`_check_name`). */
module Names {
  import opened Errors

  /** The argument handed to the validator: a string, or any other object. */
  datatype NameArg = Name(s: string) | NonString

  /** `keyword.kwlist` of Python 3. */
  const Keywords: set<string> := {
    "False", "None", "True", "and", "as", "assert", "async", "await", "break",
    "class", "continue", "def", "del", "elif", "else", "except", "finally", "for",
    "from", "global", "if", "import", "in", "is", "lambda", "nonlocal", "not",
    "or", "pass", "raise", "return", "try", "while", "with", "yield"
  }

  predicate IsDigit(c: char)
  {
    '0' <= c <= '9'
  }

  predicate IsAlnum(c: char)
  {
    'a' <= c <= 'z' || 'A' <= c <= 'Z' || IsDigit(c)
  }

  predicate IsNameChar(c: char)
  {
    IsAlnum(c) || c == '_'
  }

  /** `all(c.isalnum() or c == '_' for c in s)`, scanning left to right. */
  function AllNameChars(s: string): (b: bool)
    ensures b <==> forall i :: 0 <= i < |s| ==> IsNameChar(s[i])
  {
    if s == [] then true else IsNameChar(s[0]) && AllNameChars(s[1..])
  }

  /** What `_check_name` accepts, stated independently of the order of its tests. */
  ghost predicate ValidName(n: NameArg)
  {
    && n.Name?
    && |n.s| > 0
    && (forall i :: 0 <= i < |n.s| ==> IsNameChar(n.s[i]))
    && n.s !in Keywords
    && !IsDigit(n.s[0])
  }

  /** `_check_name`: returns None when the name passes, otherwise the failure it
      raises; the tests run in the order not-a-string, empty, bad character,
      keyword, leading digit, and every failure is a ValueError. */
  function CheckName(n: NameArg): (r: Option<Error>)
    ensures r.None? <==> ValidName(n)
    ensures r.Some? ==> ExceptionOf(r.value) == ValueError
    ensures n.Name? && n.s == [] ==> r == Some(EmptyName)
  {
    match n
    case NonString => Some(NameNotAString)
    case Name(s) =>
      if s == [] then Some(EmptyName)
      else if !AllNameChars(s) then Some(IllegalCharacter(s))
      else if s in Keywords then Some(KeywordName(s))
      else if IsDigit(s[0]) then Some(LeadingDigit(s))
      else None
  }
}
