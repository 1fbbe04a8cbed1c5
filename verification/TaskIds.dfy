/** Task IDs: ASCII letters, digits and underscores, never empty. */
module TaskIds {
  import opened Outcomes

  datatype TaskIdError = EmptyId | InvalidCharacter(character: char)

  predicate IsIdCharacter(c: char) {
    'a' <= c <= 'z' || 'A' <= c <= 'Z' || '0' <= c <= '9' || c == '_'
  }

  /** The code points of ASCII letters, digits and the underscore, and no other. */
  lemma IdCharactersAreAscii(c: char)
    ensures IsIdCharacter(c) <==> 97 <= c as int <= 122 || 65 <= c as int <= 90 || 48 <= c as int <= 57 || c as int == 95
  {
    assert 'a' as int == 97 && 'A' as int == 65 && '0' as int == 48 && '_' as int == 95;
  }

  predicate IsTaskId(text: string) {
    text != "" && forall i :: 0 <= i < |text| ==> IsIdCharacter(text[i])
  }

  type TaskId = text: string | IsTaskId(text) witness "a"

  /** `c` stands in the text, is no ID character, and follows ID characters only. */
  predicate IsFirstInvalid(text: string, c: char) {
    exists i :: 0 <= i < |text| && IsInvalidAt(text, c, i)
  }

  predicate IsInvalidAt(text: string, c: char, i: nat)
    requires i < |text|
  {
    text[i] == c && !IsIdCharacter(c) && forall j :: 0 <= j < i ==> IsIdCharacter(text[j])
  }

  /** The first character of `text` outside the alphabet of IDs. */
  function FirstInvalid(text: string): (r: Option<char>)
    ensures r.None? <==> forall i :: 0 <= i < |text| ==> IsIdCharacter(text[i])
    ensures r.Some? ==> IsFirstInvalid(text, r.value)
  {
    if text == "" then None
    else if !IsIdCharacter(text[0]) then
      assert IsInvalidAt(text, text[0], 0);
      Some(text[0])
    else
      var rest := FirstInvalid(text[1..]);
      assert rest.Some? ==> IsFirstInvalid(text, rest.value) by {
        if rest.Some? {
          var i :| 0 <= i < |text[1..]| && IsInvalidAt(text[1..], rest.value, i);
          assert forall j :: 0 < j < i + 1 ==> text[j] == text[1..][j - 1];
          assert IsInvalidAt(text, rest.value, i + 1);
        }
      }
      assert forall i :: 0 < i < |text| ==> text[i] == text[1..][i - 1];
      rest
  }

  /** Reads a task ID, or gives the first character that no ID may have. */
  function FromStr(text: string): (r: Result<TaskId, TaskIdError>)
    ensures r.Ok? <==> IsTaskId(text)
    ensures r.Ok? ==> r.value == text
    ensures text == "" <==> r == Err(EmptyId)
    ensures r.Err? && text != "" ==> r.error.InvalidCharacter? && IsFirstInvalid(text, r.error.character)
  {
    if text == "" then Err(EmptyId)
    else match FirstInvalid(text)
      case Some(character) => Err(InvalidCharacter(character))
      case None => Ok(text)
  }
}
