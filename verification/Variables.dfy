/**
 The variables of an agent's prompt (app/core/variables.py): the scan for placeholders,
 and what a caller has to provide. Sorted lists of names are sets here.
 */
module Variables {
  import opened Wrappers

  const SYSTEM_VARIABLES: set<string> :=
    {"agent_id", "execution_id", "call_sid", "from_number", "to_number", "current_date", "current_time", "timezone"}

  predicate StartsName(c: char) {
    'a' <= c <= 'z' || 'A' <= c <= 'Z' || c == '_'
  }

  predicate InName(c: char) {
    StartsName(c) || '0' <= c <= '9'
  }

  predicate IsIdentifier(name: string) {
    name != "" && StartsName(name[0]) && forall i :: 0 <= i < |name| ==> InName(name[i])
  }

  /** The text has `{name}` at this place. */
  predicate OccursAt(text: string, p: nat, name: string) {
    && p + |name| + 2 <= |text|
    && text[p] == '{' && text[p + 1..p + 1 + |name|] == name && text[p + 1 + |name|] == '}'
  }

  predicate Placeholder(text: string, p: nat, name: string) {
    IsIdentifier(name) && OccursAt(text, p, name)
  }

  /** Anywhere in the text, overlaps or not. */
  ghost predicate Mentions(text: string, name: string) {
    exists p: nat :: Placeholder(text, p, name)
  }

  // --------------------------------------------------------------------- the scan

  /** The end of the run of name characters that starts at `p`. */
  method NameEnd(text: string, p: nat) returns (q: nat)
    requires p <= |text|
    ensures p <= q <= |text| && (forall i :: p <= i < q ==> InName(text[i])) && (q < |text| ==> !InName(text[q]))
  {
    q := p;
    while q < |text| && InName(text[q])
      invariant p <= q <= |text| && forall i :: p <= i < q ==> InName(text[i])
    {
      q := q + 1;
    }
  }

  /** One attempt to match at a place: the name found and the place after it. */
  method MatchAt(text: string, p: nat) returns (name: Option<string>, end: nat)
    requires p < |text|
    ensures name.Some? ==> Placeholder(text, p, name.value) && end == p + |name.value| + 2
    ensures name.None? ==> end == p + 1 && forall n :: !Placeholder(text, p, n)
  {
    var q := NameEnd(text, p + 1);
    if text[p] == '{' && q > p + 1 && StartsName(text[p + 1]) && q < |text| && text[q] == '}' {
      assert Placeholder(text, p, text[p + 1..q]);
      return Some(text[p + 1..q]), q + 1;
    }
    forall n | Placeholder(text, p, n) ensures false {
      NameIsTheRun(text, p, n, q);
    }
    return None, p + 1;
  }

  /** A placeholder's name is all of the run of name characters after its brace. */
  lemma NameIsTheRun(text: string, p: nat, name: string, q: nat)
    requires Placeholder(text, p, name)
    requires p + 1 <= q <= |text| && (forall i :: p + 1 <= i < q ==> InName(text[i]))
    requires q < |text| ==> !InName(text[q])
    ensures q == p + 1 + |name| && q < |text| && text[q] == '}' && StartsName(text[p + 1])
  {
    assert text[p + 1] == name[0];
    var end := p + 1 + |name|;
    assert !InName(text[end]);
    assert forall i :: p + 1 <= i < end ==> text[i] == name[i - p - 1];
    assert q >= end;
  }

  /** Inside a placeholder no other one begins. */
  lemma NoneInside(text: string, p: nat, name: string, r: nat, other: string)
    requires Placeholder(text, p, name) && p < r < p + |name| + 2
    ensures !Placeholder(text, r, other)
  {
  }

  ghost predicate FoundBefore(text: string, found: set<string>, at: nat) {
    forall n :: n in found <==> exists p: nat :: p < at && Placeholder(text, p, n)
  }

  /** The scan goes from left to right and goes on after each match; still it finds
      a name exactly when the text mentions it anywhere. */
  method FindAll(text: string) returns (found: set<string>)
    ensures forall n :: n in found <==> Mentions(text, n)
  {
    found := {};
    var at := 0;
    while at < |text|
      invariant at <= |text| && FoundBefore(text, found, at)
      decreases |text| - at
    {
      ghost var before, start := found, at;
      var name, end := MatchAt(text, at);
      if name.Some? { found := found + {name.value}; }
      at := end;
      FoundNext(text, before, start, name, at);
    }
    forall n | Mentions(text, n) ensures n in found {
      var p: nat :| Placeholder(text, p, n);
    }
  }

  lemma FoundNext(text: string, found: set<string>, at: nat, name: Option<string>, end: nat)
    requires FoundBefore(text, found, at)
    requires name.Some? ==> Placeholder(text, at, name.value) && end == at + |name.value| + 2
    requires name.None? ==> end == at + 1 && forall n :: !Placeholder(text, at, n)
    ensures FoundBefore(text, found + (if name.Some? then {name.value} else {}), end)
  {
  }

  // -------------------------------------------------------------------- an agent

  /** A task is a dictionary of values, of which only texts count, or a text. */
  datatype Task = Values(values: seq<Option<string>>) | Text(text: string) | Other

  datatype Container = Container(welcome: Option<string>, prompts: seq<Task>)

  /** The flat shape, and the nested one when it is there. */
  datatype Agent = Agent(top: Container, nested: Option<Container>)

  ghost predicate InTask(t: Task, text: string) {
    match t
    case Values(values) => Some(text) in values
    case Text(own) => own == text
    case Other => false
  }

  ghost predicate InContainer(c: Container, text: string) {
    c.welcome == Some(text) || exists t :: t in c.prompts && InTask(t, text)
  }

  ghost predicate HasText(a: Agent, text: string) {
    InContainer(a.top, text) || (a.nested.Some? && InContainer(a.nested.value, text))
  }

  method TaskTexts(t: Task) returns (texts: seq<string>)
    ensures forall x :: x in texts <==> InTask(t, x)
  {
    texts := [];
    match t
    case Text(own) => texts := [own];
    case Other =>
    case Values(values) =>
      for i := 0 to |values|
        invariant forall x :: x in texts <==> Some(x) in values[..i]
      {
        assert values[..i + 1] == values[..i] + [values[i]];
        if values[i].Some? { texts := texts + [values[i].value]; }
      }
      assert values[..|values|] == values;
  }

  method ContainerTexts(c: Container) returns (texts: seq<string>)
    ensures forall x :: x in texts <==> InContainer(c, x)
  {
    texts := if c.welcome.Some? then [c.welcome.value] else [];
    for i := 0 to |c.prompts|
      invariant forall x :: x in texts <==> c.welcome == Some(x) || exists t :: t in c.prompts[..i] && InTask(t, x)
    {
      var more := TaskTexts(c.prompts[i]);
      assert c.prompts[..i + 1] == c.prompts[..i] + [c.prompts[i]];
      texts := texts + more;
    }
    assert c.prompts[..|c.prompts|] == c.prompts;
  }

  method PromptTexts(a: Agent) returns (texts: seq<string>)
    ensures forall x :: x in texts <==> HasText(a, x)
  {
    texts := ContainerTexts(a.top);
    if a.nested.Some? {
      var more := ContainerTexts(a.nested.value);
      texts := texts + more;
    }
  }

  /** The agent asks its caller for this variable. */
  ghost predicate Asks(a: Agent, name: string) {
    name !in SYSTEM_VARIABLES && exists text :: HasText(a, text) && Mentions(text, name)
  }

  method ExtractPromptVariables(a: Agent) returns (found: set<string>)
    ensures forall n :: n in found <==> Asks(a, n)
  {
    var texts := PromptTexts(a);
    var all: set<string> := {};
    for i := 0 to |texts|
      invariant forall n :: n in all <==> exists j :: 0 <= j < i && Mentions(texts[j], n)
    {
      var more := FindAll(texts[i]);
      all := all + more;
    }
    found := all - SYSTEM_VARIABLES;
    forall n | Asks(a, n) ensures n in found {
      var text :| HasText(a, text) && Mentions(text, n);
      var j :| 0 <= j < |texts| && texts[j] == text;
      assert Mentions(texts[j], n);
    }
    forall n | n in found ensures Asks(a, n) {
      var j :| 0 <= j < |texts| && Mentions(texts[j], n);
      assert texts[j] in texts;
    }
  }

  datatype Contract = Contract(all: set<string>, required: set<string>, optional: set<string>)

  /** Only a variable that the prompt has can be marked as optional. */
  method ResolveAgentVariables(a: Agent, marked: set<string>) returns (c: Contract)
    ensures forall n :: n in c.all <==> Asks(a, n)
    ensures c.required + c.optional == c.all && c.required !! c.optional
    ensures c.optional == c.all * marked
  {
    var discovered := ExtractPromptVariables(a);
    var optional := marked * discovered;
    c := Contract(discovered, discovered - optional, optional);
  }

  method ValidateVariables(provided: set<string>, required: set<string>, optional: set<string>)
    returns (missing: set<string>, extra: set<string>)
    ensures missing == {} <==> required <= provided
    ensures extra == {} <==> provided <= required + optional
    ensures missing <= required && missing !! provided && extra <= provided && extra !! required + optional
    ensures required <= provided + missing && provided <= required + optional + extra
  {
    missing, extra := required - provided, provided - (required + optional);
    assert missing == {} ==> required <= provided by {
      if missing == {} { assert forall n :: n in required ==> n !in missing; }
    }
    assert extra == {} ==> provided <= required + optional by {
      if extra == {} { assert forall n :: n in provided ==> n !in extra; }
    }
  }

  /** A call may be placed exactly when it provides each variable that some text of the
      prompt has in braces, but for the engine's own and those marked as optional. */
  method CheckCall(a: Agent, marked: set<string>, provided: set<string>) returns (accepted: bool)
    ensures accepted <==> forall n :: Asks(a, n) && n !in marked ==> n in provided
  {
    var c := ResolveAgentVariables(a, marked);
    var missing, _ := ValidateVariables(provided, c.required, c.optional);
    accepted := missing == {};
    if accepted {
      forall n | Asks(a, n) && n !in marked ensures n in provided {
        assert n in c.required;
      }
    } else {
      var n :| n in c.required && n !in provided;
      assert n in c.all && n !in c.optional;
    }
  }
}
