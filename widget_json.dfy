/** The one string step of `fetch_dolartoday_rate` (usd.py:55-56): the
    paragraph text is stripped and cut at its first '{'; what remains is
    handed to `json.loads`. The function has no `try`, so a missing '{'
    escapes as ValueError. */
module WidgetJson {
  import opened Outcomes
  import opened Text

  /** `js_snippet[js_snippet.index('{'):]` with `js_snippet = paragraph.strip()`. */
  function JsonText(paragraph: string): (r: Result<string>)
    ensures r.Raises? <==> '{' !in Strip(paragraph)
    ensures r.Raises? ==> r.error == ValueError
    ensures r.Ok? ==>
      var snippet := Strip(paragraph);
      && 0 < |r.value| <= |snippet|
      && r.value == snippet[|snippet| - |r.value|..]
      && r.value[0] == '{'
      && '{' !in snippet[..|snippet| - |r.value|]
  {
    var snippet := Strip(paragraph);
    FirstBrace(snippet);
    match IndexOf(snippet, "{")
    case None => Raises(ValueError)
    case Some(k) => Ok(snippet[k..])
  }

  /** `s.index('{')` finds the first '{', and fails only when there is none. */
  lemma FirstBrace(s: string)
    ensures IndexOf(s, "{").Some? <==> '{' in s
    ensures IndexOf(s, "{").Some? ==>
      var k := IndexOf(s, "{").value;
      k < |s| && s[k] == '{' && '{' !in s[..k]
  {
    var r := IndexOf(s, "{");
    if r.Some? {
      var k := r.value;
      assert s[k..k + 1] == "{";
      assert s[k] == '{';
      forall j | 0 <= j < k
        ensures s[j] != '{'
      {
        assert !OccursAt(s, "{", j);
        assert s[j..j + 1] == [s[j]];
      }
    } else {
      forall j | 0 <= j < |s|
        ensures s[j] != '{'
      {
        assert !OccursAt(s, "{", j);
        assert s[j..j + 1] == [s[j]];
      }
    }
  }

  lemma ScriptStrip()
    ensures Strip("dt = {\"USD\": {}}") == "dt = {\"USD\": {}}"
  {
    StripKeeps("dt = {\"USD\": {}}");
  }

  lemma ScriptBrace()
    ensures "dt = {\"USD\": {}}"[5] == '{' && '{' !in "dt = {\"USD\": {}}"[..5]
    ensures "dt = {\"USD\": {}}"[5..] == "{\"USD\": {}}"
  {
  }

  /** The text handed to the JSON parser is the stripped snippet from its
      first brace on. */
  lemma JsonTextFrom(paragraph: string, k: nat)
    requires k < |Strip(paragraph)| && Strip(paragraph)[k] == '{'
    requires '{' !in Strip(paragraph)[..k]
    ensures JsonText(paragraph) == Ok(Strip(paragraph)[k..])
  {
    FirstBrace(Strip(paragraph));
  }

  /** The widget's script: the JSON object starts at the first brace. */
  lemma ScriptExample()
    ensures JsonText("dt = {\"USD\": {}}") == Ok("{\"USD\": {}}")
  {
    ScriptStrip();
    ScriptBrace();
    JsonTextFrom("dt = {\"USD\": {}}", 5);
  }

  lemma DeniedStrip()
    ensures Strip("Access denied") == "Access denied"
  {
    StripKeeps("Access denied");
  }

  /** Text without a brace raises ValueError, which nothing catches. */
  lemma NoBraceExample()
    ensures JsonText("Access denied") == Raises(ValueError)
  {
    DeniedStrip();
    assert '{' !in "Access denied";
  }
}
