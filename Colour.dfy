/** The console colouring helpers `colour`, `red` and `green` of setup.rb. */
module Colour {
  import opened Strings

  const Escape: char := '\U{1b}'
  /** The sequence that resets the terminal's rendition: ESC [ 0 m. */
  const Reset: string := [Escape] + "[0m"
  const RedCode: string := "31"
  const GreenCode: string := "32"

  /** The sequence that selects rendition `code`: ESC [ code m. */
  function Select(code: string): (r: string)
    ensures |r| == |code| + 3
  {
    [Escape, '['] + code + "m"
  }

  /** `colour text, code`: the text between the selection of `code` and a reset. */
  function Colour(text: string, code: string): (r: string)
    ensures |r| == |Select(code)| + |text| + |Reset|
    ensures StartsWith(r, Select(code))
    ensures EndsWith(r, Reset)
    ensures r[|Select(code)|..|r| - |Reset|] == text
  {
    Select(code) + text + Reset
  }

  /**
   * Reads a coloured string back into its code and text: the code runs from
   * the opening escape to the first `m`, the text from there to the reset.
   */
  function Uncolour(s: string): (r: Option<(string, string)>)
    ensures r.Some? ==> 'm' !in r.value.0 && Colour(r.value.1, r.value.0) == s
  {
    if |s| < 7 || s[0] != Escape || s[1] != '[' || !EndsWith(s, Reset) then None
    else
      IndexOfSpec(s, 'm', 2);
      match IndexOf(s, 'm', 2)
      case None => None
      case Some(m) =>
        if m + 1 <= |s| - |Reset| then
          var code, text := s[2..m], s[m + 1..|s| - |Reset|];
          assert s == Select(code) + text + Reset;
          Some((code, text))
        else None
  }

  /** Any text coloured with a code free of `m` reads back as that code and text. */
  lemma UncolourColour(text: string, code: string)
    requires 'm' !in code
    ensures Uncolour(Colour(text, code)) == Some((code, text))
  {
    var s := Colour(text, code);
    assert s[2..2 + |code|] == code;
    assert s[2 + |code|] == 'm';
    assert forall k :: 2 <= k < 2 + |code| ==> s[k] == code[k - 2];
    IndexOfFirst(s, 'm', 2, 2 + |code|);
    assert s[2 + |code| + 1..|s| - |Reset|] == text;
  }

  /** `red text`: the text in rendition 31, which reads back as exactly that. */
  function Red(text: string): (r: string)
    ensures Uncolour(r) == Some((RedCode, text))
  {
    UncolourColour(text, RedCode);
    Colour(text, RedCode)
  }

  /** `green text`: the text in rendition 32, which reads back as exactly that. */
  function Green(text: string): (r: string)
    ensures Uncolour(r) == Some((GreenCode, text))
  {
    UncolourColour(text, GreenCode);
    Colour(text, GreenCode)
  }
}
