/**
 * Language detection: which supported language a free-text request names,
 * the extension table and the name of the script file that follows from it.
 */
module Detection {
  import opened Wrappers
  import opened GoStrings

  /** The static table from language name to file extension. */
  const LanguageExtensions: map<string, string> := map[
    "python" := ".py",
    "go" := ".go",
    "ruby" := ".rb",
    "perl" := ".pl",
    "bash" := ".sh",
    "powershell" := ".ps1",
    "javascript" := ".js",
    "typescript" := ".ts",
    "php" := ".php",
    "lua" := ".lua"
  ]

  /** The order in which detection tests the language names. */
  const Priority: seq<string> :=
    ["python", "ruby", "perl", "bash", "powershell", "javascript", "typescript", "php", "lua", "go"]

  /** Base name of every generated script; the extension is appended to it. */
  const ScriptBaseName: string := "gollum_script"

  /**
   * `detectLanguage`: lower-cases the input, then looks for the supported
   * names in it, in priority order.
   */
  function DetectLanguage(input: string): (r: string)
    ensures r == "" || r in LanguageExtensions
    ensures r == "" || r in Priority
  {
    MatchLanguage(ToLower(input))
  }

  /**
   * The if/else chain of `detectLanguage` on the already lower-cased text:
   * the first name that is a substring of it, or "" when there is none.
   */
  function MatchLanguage(text: string): (r: string)
    ensures r == "" || r in LanguageExtensions
  {
    if Contains(text, "python") then "python"
    else if Contains(text, "ruby") then "ruby"
    else if Contains(text, "perl") then "perl"
    else if Contains(text, "bash") then "bash"
    else if Contains(text, "powershell") then "powershell"
    else if Contains(text, "javascript") then "javascript"
    else if Contains(text, "typescript") then "typescript"
    else if Contains(text, "php") then "php"
    else if Contains(text, "lua") then "lua"
    else if Contains(text, "go") || Contains(text, "golang") then "go"
    else ""
  }

  /** Reference definition: the first of `names[k..]` that occurs in `text`, or "". */
  function FirstMatch(text: string, names: seq<string>, k: nat): string
    decreases |names| - k
  {
    if k >= |names| then ""
    else if Contains(text, names[k]) then names[k]
    else FirstMatch(text, names, k + 1)
  }

  /** Index of the first of `names[k..]` that occurs in `text`, `|names|` when none does. */
  function FirstMatchIndex(text: string, names: seq<string>, k: nat): (m: nat)
    requires k <= |names|
    ensures k <= m <= |names|
    ensures forall j :: k <= j < m ==> !Contains(text, names[j])
    ensures m < |names| ==> Contains(text, names[m])
    decreases |names| - k
  {
    if k == |names| then k
    else if Contains(text, names[k]) then k
    else FirstMatchIndex(text, names, k + 1)
  }

  lemma {:induction false} FirstMatchAtIndex(text: string, names: seq<string>, k: nat)
    requires k <= |names|
    ensures FirstMatch(text, names, k) ==
      (var m := FirstMatchIndex(text, names, k); if m < |names| then names[m] else "")
    decreases |names| - k
  {
    if k < |names| && !Contains(text, names[k]) {
      FirstMatchAtIndex(text, names, k + 1);
    }
  }

  /** The `"golang"` test is redundant: an input containing it already contains "go". */
  lemma GolangIsRedundant(text: string)
    requires Contains(text, "golang")
    ensures Contains(text, "go")
  {
    ContainsPrefix(text, "golang", 2);
    assert "golang"[..2] == "go";
  }

  /** The if/else chain of `detectLanguage` is the first match over `Priority`. */
  lemma DetectLanguageIsFirstMatch(input: string)
    ensures DetectLanguage(input) == FirstMatch(ToLower(input), Priority, 0)
  {
    var text := ToLower(input);
    if Contains(text, "golang") {
      GolangIsRedundant(text);
    }
    var p := Priority;
    assert FirstMatch(text, p, 9) == (if Contains(text, "go") then "go" else "");
    assert FirstMatch(text, p, 8) == (if Contains(text, "lua") then "lua" else FirstMatch(text, p, 9));
    assert FirstMatch(text, p, 7) == (if Contains(text, "php") then "php" else FirstMatch(text, p, 8));
    assert FirstMatch(text, p, 6) == (if Contains(text, "typescript") then "typescript" else FirstMatch(text, p, 7));
    assert FirstMatch(text, p, 5) == (if Contains(text, "javascript") then "javascript" else FirstMatch(text, p, 6));
    assert FirstMatch(text, p, 4) == (if Contains(text, "powershell") then "powershell" else FirstMatch(text, p, 5));
    assert FirstMatch(text, p, 3) == (if Contains(text, "bash") then "bash" else FirstMatch(text, p, 4));
    assert FirstMatch(text, p, 2) == (if Contains(text, "perl") then "perl" else FirstMatch(text, p, 3));
    assert FirstMatch(text, p, 1) == (if Contains(text, "ruby") then "ruby" else FirstMatch(text, p, 2));
    assert FirstMatch(text, p, 0) == (if Contains(text, "python") then "python" else FirstMatch(text, p, 1));
  }

  /**
   * Detection characterised: the result is "" exactly when no supported name
   * occurs in the lower-cased input; otherwise it is the name at some
   * position `k` of `Priority` that occurs, and none before `k` occurs.
   */
  lemma DetectLanguageSpec(input: string)
    ensures var text, r := ToLower(input), DetectLanguage(input);
      && (r == "" <==> forall j :: 0 <= j < |Priority| ==> !Contains(text, Priority[j]))
      && (r != "" ==> exists k :: 0 <= k < |Priority| && Priority[k] == r && Contains(text, r)
                               && forall j :: 0 <= j < k ==> !Contains(text, Priority[j]))
  {
    var text := ToLower(input);
    DetectLanguageIsFirstMatch(input);
    FirstMatchAtIndex(text, Priority, 0);
    var k := FirstMatchIndex(text, Priority, 0);
    if k < |Priority| {
      assert Priority[k] != "";
    }
  }

  /** Detection ignores case: lower-casing the input first changes nothing. */
  lemma DetectLanguageIgnoresCase(input: string)
    ensures DetectLanguage(ToLower(input)) == DetectLanguage(input)
  {
    ToLowerIdempotent(input);
  }

  /** Lower-case text is matched as it stands. */
  lemma DetectLanguageOfLower(text: string)
    requires IsLower(text)
    ensures DetectLanguage(text) == MatchLanguage(text)
  {
    ToLowerOfLower(text);
  }

  /** A name that occurs wins over every name after it: the result lies at or before it. */
  lemma {:induction false} EarlierNameWins(input: string, j: nat)
    requires j < |Priority| && Contains(ToLower(input), Priority[j])
    ensures DetectLanguage(input) in Priority[..j + 1]
  {
    var text := ToLower(input);
    DetectLanguageIsFirstMatch(input);
    FirstMatchAtIndex(text, Priority, 0);
    var k := FirstMatchIndex(text, Priority, 0);
    assert k <= j;
    assert Priority[..j + 1][k] == Priority[k];
  }

  /** "python" is tested first, so it wins whatever else the input holds. */
  lemma PythonAlwaysWins(input: string)
    requires Contains(ToLower(input), "python")
    ensures DetectLanguage(input) == "python"
  {
  }

  /** An input naming both "javascript" and "typescript" is never detected as typescript. */
  lemma JavascriptBeforeTypescript(input: string)
    requires Contains(ToLower(input), "javascript") && Contains(ToLower(input), "typescript")
    ensures DetectLanguage(input) != "typescript"
  {
  }

  /** "go" is the answer only when it occurs and no other supported name does. */
  lemma GoOnlyAsLastResort(input: string)
    ensures DetectLanguage(input) == "go" <==>
      && Contains(ToLower(input), "go")
      && forall j :: 0 <= j < |Priority| - 1 ==> !Contains(ToLower(input), Priority[j])
  {
    DetectLanguageSpec(input);
    if DetectLanguage(input) == "go" {
      var k :| 0 <= k < |Priority| && Priority[k] == "go" && Contains(ToLower(input), "go")
               && forall j :: 0 <= j < k ==> !Contains(ToLower(input), Priority[j]);
      assert k == 9;
    }
  }

  // ---------------------------------------------------------------------------
  // Extensions and the script filename
  // ---------------------------------------------------------------------------

  /** The table's keys are exactly the names that detection tests. */
  lemma ExtensionKeysArePriority()
    ensures forall k :: 0 <= k < |Priority| ==> Priority[k] in LanguageExtensions
    ensures forall lang :: lang in LanguageExtensions ==> lang in Priority
  {
  }

  /** Every extension starts with a dot, so it is never empty; distinct languages have distinct extensions. */
  lemma ExtensionsWellFormed()
    ensures forall lang :: lang in LanguageExtensions ==>
      |LanguageExtensions[lang]| >= 2 && LanguageExtensions[lang][0] == '.'
    ensures forall a, b :: a in LanguageExtensions && b in LanguageExtensions && a != b ==>
      LanguageExtensions[a] != LanguageExtensions[b]
  {
  }

  /**
   * Line 64 of `chat`: the base name followed by the language's extension; a
   * language missing from the table reads Go's zero value "" for it.
   */
  function ScriptFilename(lang: string): (name: string)
    ensures |name| >= |ScriptBaseName| && name[..|ScriptBaseName|] == ScriptBaseName
    ensures lang in LanguageExtensions ==> name[|ScriptBaseName|..] == LanguageExtensions[lang]
    ensures lang !in LanguageExtensions ==> name == ScriptBaseName
  {
    ScriptBaseName + (if lang in LanguageExtensions then LanguageExtensions[lang] else "")
  }

  /** Distinct supported languages never write to the same file name. */
  lemma ScriptFilenameInjective(a: string, b: string)
    requires a in LanguageExtensions && b in LanguageExtensions
    requires ScriptFilename(a) == ScriptFilename(b)
    ensures a == b
  {
    ExtensionsWellFormed();
    assert ScriptFilename(a)[|ScriptBaseName|..] == ScriptFilename(b)[|ScriptBaseName|..];
  }

  /**
   * Lines 54-58 and 64 of `chat`: no file at all for an unsupported request,
   * otherwise the base name with the detected language's own extension.
   */
  function TargetFilename(prompt: string): (r: Option<string>)
    ensures r.None? <==> DetectLanguage(prompt) == ""
    ensures r.Some? ==> DetectLanguage(prompt) in LanguageExtensions && r.value == ScriptBaseName + LanguageExtensions[DetectLanguage(prompt)]
  {
    var lang := DetectLanguage(prompt);
    if lang == "" then None else Some(ScriptFilename(lang))
  }

  // Worked cases. Each input is lower case, so by DetectLanguageOfLower its
  // detection is the chain applied to the input itself: each case is proved
  // for the chain first and then carried over to DetectLanguage. The input is
  // passed as a parameter fixed by the requires clause, which keeps the
  // verifier from evaluating every substring test on the literal.

  /** The chain finds python in the documented example request. */
  lemma PythonRequestExample(text: string)
    requires text == "write me a python script"
    ensures MatchLanguage(text) == "python"
  {
    ContainsAt(text, "python", 11);
  }

  /** The whole of `detectLanguage` gives the same answer for this lower-case request. */
  lemma PythonRequestDetected(text: string)
    requires text == "write me a python script"
    ensures DetectLanguage(text) == "python"
  {
    PythonRequestExample(text);
    assert IsLower(text);
    DetectLanguageOfLower(text);
  }

  /** The chain finds bash in a bash request, and bash scripts are named `gollum_script.sh`. */
  lemma BashRequestExample(text: string)
    requires text == "make a bash script"
    ensures MatchLanguage(text) == "bash"
    ensures ScriptFilename("bash") == "gollum_script.sh"
  {
    ContainsAt(text, "bash", 7);
    NotContainsByFirstPair(text, "python");
    NotContainsByFirstPair(text, "ruby");
    NotContainsByFirstPair(text, "perl");
  }

  /** The whole of `detectLanguage` gives the same answer for this lower-case request. */
  lemma BashRequestDetected(text: string)
    requires text == "make a bash script"
    ensures DetectLanguage(text) == "bash"
  {
    BashRequestExample(text);
    assert IsLower(text);
    DetectLanguageOfLower(text);
  }

  /** Matching is by substring, not by word: "bashful" counts as bash. */
  lemma SubstringOverMatchExample(text: string)
    requires text == "i like bashful naming"
    ensures MatchLanguage(text) == "bash"
  {
    ContainsAt(text, "bash", 7);
    NotContainsByFirstPair(text, "python");
    NotContainsByFirstPair(text, "ruby");
    NotContainsByFirstPair(text, "perl");
  }

  /** The whole of `detectLanguage` gives the same answer for this lower-case request. */
  lemma SubstringOverMatchDetected(text: string)
    requires text == "i like bashful naming"
    ensures DetectLanguage(text) == "bash"
  {
    SubstringOverMatchExample(text);
    assert IsLower(text);
    DetectLanguageOfLower(text);
  }

  /** The chain finds nothing in a request naming no supported language. */
  lemma UnsupportedRequestExample(text: string)
    requires text == "list files"
    ensures MatchLanguage(text) == ""
  {
    NotContainsByFirstPair(text, "python");
    NotContainsByFirstPair(text, "ruby");
    NotContainsByFirstPair(text, "perl");
    NotContainsByFirstPair(text, "bash");
    NotContainsByFirstPair(text, "powershell");
    NotContainsByFirstPair(text, "javascript");
    NotContainsByFirstPair(text, "typescript");
    NotContainsByFirstPair(text, "php");
    NotContainsByFirstPair(text, "lua");
    NotContainsByFirstPair(text, "go");
    NotContainsByFirstPair(text, "golang");
  }

  /** The whole of `detectLanguage` gives the same answer for this lower-case request. */
  lemma UnsupportedRequestDetected(text: string)
    requires text == "list files"
    ensures DetectLanguage(text) == ""
  {
    UnsupportedRequestExample(text);
    assert IsLower(text);
    DetectLanguageOfLower(text);
  }

}
