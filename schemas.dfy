/**
 * Request validation (schemas.py). Pydantic first applies the Field
 * constraints to the raw value; only a value that passes them reaches the
 * field validator, whose return value (stripped text) is what is stored.
 * A rejected request reports the names of the fields that failed.
 */
module Schemas {
  import opened Common

  /** Python's str.isspace() for one character. */
  predicate IsSpace(c: char) {
    || c == ' ' || c == '\t' || c == '\n' || c == '\r' || c == '\U{B}' || c == '\U{C}'
    || ('\U{1C}' <= c <= '\U{1F}') || c == '\U{85}' || c == '\U{A0}' || c == '\U{1680}'
    || ('\U{2000}' <= c <= '\U{200A}') || c == '\U{2028}' || c == '\U{2029}' || c == '\U{202F}'
    || c == '\U{205F}' || c == '\U{3000}'
  }

  /** Number of whitespace characters that open `s`. */
  function Lead(s: string): (n: nat)
    ensures n <= |s|
  {
    if s != [] && IsSpace(s[0]) then 1 + Lead(s[1..]) else 0
  }

  /** Everything before `Lead(s)` is whitespace, and the character at it is not. */
  lemma {:induction false} LeadFacts(s: string)
    ensures forall i :: 0 <= i < Lead(s) ==> IsSpace(s[i])
    ensures Lead(s) < |s| ==> !IsSpace(s[Lead(s)])
  {
    if s != [] && IsSpace(s[0]) {
      LeadFacts(s[1..]);
      forall i | 0 <= i < Lead(s) ensures IsSpace(s[i]) {
        if i > 0 {
          assert s[i] == s[1..][i - 1];
        }
      }
      if Lead(s) < |s| {
        assert s[Lead(s)] == s[1..][Lead(s[1..])];
      }
    }
  }

  /** Number of whitespace characters that close `s`. */
  function Trail(s: string): (n: nat)
    ensures n <= |s|
  {
    if s != [] && IsSpace(s[|s| - 1]) then 1 + Trail(s[..|s| - 1]) else 0
  }

  /** The last `Trail(s)` characters are whitespace, and the one before them is not. */
  lemma {:induction false} TrailFacts(s: string)
    ensures forall i :: |s| - Trail(s) <= i < |s| ==> IsSpace(s[i])
    ensures Trail(s) < |s| ==> !IsSpace(s[|s| - 1 - Trail(s)])
  {
    if s != [] && IsSpace(s[|s| - 1]) {
      var init := s[..|s| - 1];
      TrailFacts(init);
      forall i | |s| - Trail(s) <= i < |s| ensures IsSpace(s[i]) {
        if i < |s| - 1 {
          assert s[i] == init[i];
        }
      }
      if Trail(s) < |s| {
        assert s[|s| - 1 - Trail(s)] == init[|init| - 1 - Trail(init)];
      }
    }
  }

  /** Python's str.strip(): drops the whitespace at both ends. */
  function Strip(s: string): (r: string)
    ensures |r| <= |s|
    ensures Lead(s) == |s| ==> r == ""
    ensures Lead(s) < |s| ==> Lead(s) + Trail(s) < |s| && r == s[Lead(s)..|s| - Trail(s)]
  {
    if Lead(s) == |s| then ""
    else
      LeadFacts(s);
      TrailFacts(s);
      assert !IsSpace(s[Lead(s)]);
      s[Lead(s)..|s| - Trail(s)]
  }

  /** A stripped text neither starts nor ends with whitespace. */
  lemma StripEnds(s: string)
    ensures var r := Strip(s); r != [] ==> !IsSpace(r[0]) && !IsSpace(r[|r| - 1])
  {
    var r := Strip(s);
    if r != [] {
      LeadFacts(s);
      TrailFacts(s);
      assert r[0] == s[Lead(s)];
      assert r[|r| - 1] == s[|s| - 1 - Trail(s)];
    }
  }

  /** Stripping leaves nothing exactly when the text is all whitespace. */
  lemma StripEmpty(s: string)
    ensures Strip(s) == [] <==> forall i :: 0 <= i < |s| ==> IsSpace(s[i])
  {
    LeadFacts(s);
  }

  /** Stripping twice is stripping once. */
  lemma StripIdempotent(s: string)
    ensures Strip(Strip(s)) == Strip(s)
  {
    var r := Strip(s);
    if r != [] {
      StripEnds(s);
      assert Lead(r) == 0;
      assert Trail(r) == 0;
      assert r[0..|r|] == r;
    }
  }

  datatype TaskCreate = TaskCreate(title: string, description: string, context: string, dueDate: Option<string>)
  datatype ContextUpdate = ContextUpdate(context: string)
  datatype SettingsUpdate = SettingsUpdate(llmModel: string, maxTokens: int)

  const TitleMax := 200
  const TextMax := 1000
  const GlobalContextMax := 5000
  const MinTokens := 100
  const MaxTokens := 10000

  /** The stored title, or None when the title field is rejected. */
  function CheckTitle(v: string): Option<string> {
    if |v| < 1 || |v| > TitleMax then None
    else if Strip(v) == "" then None
    else Some(Strip(v))
  }

  function CheckText(v: string, max: nat): Option<string> {
    if |v| > max then None else Some(v)
  }

  /** The stored model name, or None when the llm_model field is rejected. */
  function CheckLlmModel(v: string): Option<string> {
    if |v| < 1 || |v| > TitleMax then None
    else if Strip(v) == "" then None
    else if '/' !in v then None
    else Some(Strip(v))
  }

  function CheckMaxTokens(v: int): Option<int> {
    if v < MinTokens || v > MaxTokens then None else Some(v)
  }

  function Failed<T>(name: string, o: Option<T>): seq<string> {
    if o.None? then [name] else []
  }

  function ValidateTaskCreate(title: string, description: string, context: string, dueDate: Option<string>): (r: Result<TaskCreate, seq<string>>)
    ensures r.Ok? <==>
      && 1 <= |title| <= TitleMax
      && (exists i :: 0 <= i < |title| && !IsSpace(title[i]))
      && |description| <= TextMax && |context| <= TextMax
    ensures r.Ok? ==> r.value == TaskCreate(Strip(title), description, context, dueDate)
    ensures r.Err? ==> r.error != []
  {
    StripEmpty(title);
    var t, d, c := CheckTitle(title), CheckText(description, TextMax), CheckText(context, TextMax);
    if t.Some? && d.Some? && c.Some? then Ok(TaskCreate(t.value, d.value, c.value, dueDate))
    else Err(Failed("title", t) + Failed("description", d) + Failed("context", c))
  }

  function ValidateContextUpdate(context: string): (r: Result<ContextUpdate, seq<string>>)
    ensures r.Ok? <==> |context| <= GlobalContextMax
    ensures r.Ok? ==> r.value.context == context
  {
    match CheckText(context, GlobalContextMax)
    case Some(c) => Ok(ContextUpdate(c))
    case None => Err(["context"])
  }

  function ValidateSettingsUpdate(llmModel: string, maxTokens: int): (r: Result<SettingsUpdate, seq<string>>)
    ensures r.Ok? <==>
      && 1 <= |llmModel| <= TitleMax
      && (exists i :: 0 <= i < |llmModel| && !IsSpace(llmModel[i]))
      && '/' in llmModel
      && MinTokens <= maxTokens <= MaxTokens
    ensures r.Ok? ==> r.value == SettingsUpdate(Strip(llmModel), maxTokens)
    ensures r.Err? ==> r.error != []
  {
    StripEmpty(llmModel);
    var m, k := CheckLlmModel(llmModel), CheckMaxTokens(maxTokens);
    if m.Some? && k.Some? then Ok(SettingsUpdate(m.value, k.value))
    else Err(Failed("llm_model", m) + Failed("max_tokens", k))
  }

  /**
   * An accepted title is non-empty, at most 200 characters, starts and ends
   * with non-space and is the input without its surrounding whitespace.
   */
  lemma AcceptedTitleIsTrimmed(title: string)
    requires CheckTitle(title).Some?
    ensures var t := CheckTitle(title).value;
      && t != "" && |t| <= TitleMax
      && !IsSpace(t[0]) && !IsSpace(t[|t| - 1])
      && Lead(title) + |t| + Trail(title) == |title|
      && t == title[Lead(title)..|title| - Trail(title)]
  {
    var t := CheckTitle(title).value;
    assert t == Strip(title) && t != "" && |title| <= TitleMax;
    StripEnds(title);
  }
}
