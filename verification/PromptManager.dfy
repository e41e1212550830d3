/** `PromptManager` of hub/prompt_manager.py: templates with their version history, and rendering. */
module PromptManager {
  import opened PromptText
  import opened Wrappers

  datatype Variable = Variable(name: string, defaultValue: string, required: bool)

  datatype Version = Version(number: int, content: string, variables: seq<Variable>)

  /** A template is its current version; the rest of its record plays no part in rendering. */
  type TemplateId = string

  datatype Result = Rendered(text: string) | NotFound | Missing(names: seq<string>)

  datatype Store = Store(templates: map<TemplateId, Version>, versions: map<TemplateId, seq<Version>>)

  /** Every template has its versions 1, 2, ... on record, and is the last of them. */
  ghost predicate Consistent(s: Store) {
    && s.templates.Keys == s.versions.Keys
    && forall t :: t in s.versions ==>
         && |s.versions[t]| > 0 && s.templates[t] == s.versions[t][|s.versions[t]| - 1]
         && forall i :: 0 <= i < |s.versions[t]| ==> s.versions[t][i].number == i + 1
  }

  // ---------------------------------------------------------------------
  // Rendering one version
  // ---------------------------------------------------------------------

  function Detected(word: Words, content: string): (vars: seq<Variable>)
    ensures forall v :: v in vars ==> v.required && v.defaultValue == "" && Placeholder(v.name) in Scan(word, content)
    ensures forall n :: Placeholder(n) in Scan(word, content) ==> Variable(n, "", true) in vars
  {
    var names := Names(Scan(word, content));
    var vars := seq(|names|, i requires 0 <= i < |names| => Variable(names[i], "", true));
    assert forall n :: n in names ==> Variable(n, "", true) in vars by {
      forall n | n in names ensures Variable(n, "", true) in vars {
        var i :| 0 <= i < |names| && names[i] == n;
        assert vars[i] == Variable(n, "", true);
      }
    }
    vars
  }

  /** Variables that are not given are read off the text. */
  function VariablesFor(word: Words, content: string, variables: Option<seq<Variable>>): seq<Variable> {
    if variables.Some? then variables.value else Detected(word, content)
  }

  predicate IsMissing(v: Variable, values: map<string, string>) {
    v.required && v.name !in values && v.defaultValue == ""
  }

  function MissingNames(vars: seq<Variable>, values: map<string, string>): (r: seq<string>)
    ensures forall n :: n in r <==> exists v :: v in vars && v.name == n && IsMissing(v, values)
  {
    if vars == [] then []
    else
      assert vars == [vars[0]] + vars[1..];
      (if IsMissing(vars[0], values) then [vars[0].name] else []) + MissingNames(vars[1..], values)
  }

  /** What each declared name stands for: the value supplied, or else its default. */
  function Substitution(vars: seq<Variable>, values: map<string, string>): (r: map<string, string>)
    ensures forall n :: n in r <==> exists v :: v in vars && v.name == n
    ensures forall n :: n in r && n in values ==> r[n] == values[n]
  {
    if vars == [] then map[]
    else
      var v := vars[|vars| - 1];
      assert vars == vars[..|vars| - 1] + [v];
      Substitution(vars[..|vars| - 1], values)[v.name := if v.name in values then values[v.name] else v.defaultValue]
  }

  function RenderVersion(word: Words, v: Version, values: map<string, string>): Result {
    var missing := MissingNames(v.variables, values);
    if missing != [] then Missing(missing)
    else Rendered(Fill(Scan(word, v.content), Substitution(v.variables, values)))
  }

  /** With the variables detected in its own text, a template fails exactly when some placeholder in
      the text has no value supplied, and then names exactly those; otherwise every placeholder
      is replaced by the value supplied for it. */
  lemma DetectedRendersExactly(word: Words, number: int, content: string, values: map<string, string>)
    requires Usable(word)
    ensures var r := RenderVersion(word, Version(number, content, Detected(word, content)), values);
      && (r.Missing? <==> exists n :: Placeholder(n) in Scan(word, content) && n !in values)
      && (r.Missing? ==> forall n :: n in r.names <==> Placeholder(n) in Scan(word, content) && n !in values)
      && (!r.Missing? ==> r == Rendered(Fill(Scan(word, content), values)))
  {
    var pieces, vars := Scan(word, content), Detected(word, content);
    var missing := MissingNames(vars, values);
    forall n ensures n in missing <==> Placeholder(n) in pieces && n !in values {
      if Placeholder(n) in pieces && n !in values {
        assert IsMissing(Variable(n, "", true), values);
      }
    }
    if missing == [] {
      var sub := Substitution(vars, values);
      forall n | Placeholder(n) in pieces ensures n in sub && n in values && sub[n] == values[n] {
        assert Variable(n, "", true) in vars;
      }
      FillDependsOnNames(pieces, sub, values);
    } else {
      assert missing[0] in missing;
    }
  }

  /** `w` is what the declared names stand for: a name stands for the value supplied, or else for the
      default of its last declaration; a name that is not declared stands for nothing, even if a
      value is supplied. */
  ghost predicate StandsFor(vars: seq<Variable>, values: map<string, string>, w: map<string, string>) {
    && (forall n :: n in w <==> exists v :: v in vars && v.name == n)
    && forall i :: 0 <= i < |vars| && LastDeclared(vars, i) ==>
         && vars[i].name in w
         && w[vars[i].name] == if vars[i].name in values then values[vars[i].name] else vars[i].defaultValue
  }

  ghost predicate LastDeclared(vars: seq<Variable>, i: int)
    requires 0 <= i < |vars|
  {
    forall j :: i < j < |vars| ==> vars[j].name != vars[i].name
  }

  function ValueOf(v: Variable, values: map<string, string>): string {
    if v.name in values then values[v.name] else v.defaultValue
  }

  lemma StandsForMore(vars: seq<Variable>, v: Variable, values: map<string, string>, w: map<string, string>)
    requires StandsFor(vars, values, w)
    ensures StandsFor(vars + [v], values, w[v.name := ValueOf(v, values)])
  {
    var all, w' := vars + [v], w[v.name := ValueOf(v, values)];
    forall n ensures n in w' <==> exists x :: x in all && x.name == n {
      assert v in all && forall x :: x in vars ==> x in all;
    }
    forall i | 0 <= i < |vars| && LastDeclared(all, i)
      ensures all[i].name in w' && w'[all[i].name] == ValueOf(all[i], values)
    {
      assert all[|vars|].name != all[i].name;
      assert LastDeclared(vars, i) by {
        forall j | i < j < |vars| ensures vars[j].name != vars[i].name { assert all[j].name != all[i].name; }
      }
    }
  }

  lemma {:induction false} SubstitutionStands(vars: seq<Variable>, values: map<string, string>)
    ensures StandsFor(vars, values, Substitution(vars, values))
  {
    if vars != [] {
      var init, last := vars[..|vars| - 1], vars[|vars| - 1];
      SubstitutionStands(init, values);
      StandsForMore(init, last, values, Substitution(init, values));
      assert init + [last] == vars;
    }
  }

  /** Rendering a version fails exactly when a required variable has neither a value nor a default, and
      then names exactly those; otherwise every placeholder is replaced by what its name stands for,
      and stays as it is when its name is not declared. */
  lemma RendersExactly(word: Words, v: Version, values: map<string, string>) returns (w: map<string, string>)
    ensures var r := RenderVersion(word, v, values);
      && (forall n :: r.Missing? && n in r.names ==>
            exists x :: x in v.variables && x.name == n && x.required && n !in values && x.defaultValue == "")
      && (forall x :: x in v.variables && x.required && x.name !in values && x.defaultValue == "" ==>
            r.Missing? && x.name in r.names)
      && (r.Missing? ==> r.names != [])
      && (!r.Missing? ==> r == Rendered(Fill(Scan(word, v.content), w)))
    ensures StandsFor(v.variables, values, w)
  {
    w := Substitution(v.variables, values);
    SubstitutionStands(v.variables, values);
    var missing := MissingNames(v.variables, values);
    forall x | x in v.variables && x.required && x.name !in values && x.defaultValue == ""
      ensures x.name in missing
    {
      assert IsMissing(x, values);
    }
  }

  // ---------------------------------------------------------------------
  // The store
  // ---------------------------------------------------------------------

  /** `get_version`: the first version on record with that number. */
  function FindVersion(versions: seq<Version>, number: int): Option<Version> {
    if versions == [] then None
    else if versions[0].number == number then Some(versions[0])
    else FindVersion(versions[1..], number)
  }

  lemma {:induction false} FindNumbered(versions: seq<Version>, first: int, number: int)
    requires forall i :: 0 <= i < |versions| ==> versions[i].number == first + i
    ensures FindVersion(versions, number) ==
      if first <= number < first + |versions| then Some(versions[number - first]) else None
  {
    if versions != [] && versions[0].number != number {
      FindNumbered(versions[1..], first + 1, number);
    }
  }

  function Render(word: Words, s: Store, t: TemplateId, values: map<string, string>, version: Option<int>): Result {
    match version
    case Some(number) =>
      (match FindVersion(if t in s.versions then s.versions[t] else [], number)
       case None => NotFound
       case Some(v) => RenderVersion(word, v, values))
    case None =>
      if t in s.templates then RenderVersion(word, s.templates[t], values) else NotFound
  }

  function Created(s: Store, t: TemplateId, content: string, variables: seq<Variable>): Store {
    var v := Version(1, content, variables);
    Store(s.templates[t := v], s.versions[t := [v]])
  }

  function Updated(s: Store, t: TemplateId, content: string, variables: seq<Variable>): Store {
    if t !in s.templates then s
    else
      var v := Version(s.templates[t].number + 1, content, variables);
      Store(s.templates[t := v], s.versions[t := (if t in s.versions then s.versions[t] else []) + [v]])
  }

  function Deleted(s: Store, t: TemplateId): Store {
    if t !in s.templates then s else Store(s.templates - {t}, s.versions - {t})
  }

  lemma CreateStaysConsistent(s: Store, t: TemplateId, content: string, variables: seq<Variable>)
    requires Consistent(s)
    ensures Consistent(Created(s, t, content, variables))
  {
  }

  lemma UpdateStaysConsistent(s: Store, t: TemplateId, content: string, variables: seq<Variable>)
    requires Consistent(s)
    ensures Consistent(Updated(s, t, content, variables))
  {
    if t in s.templates {
      assert s.templates[t].number == |s.versions[t]|;
      var r := Updated(s, t, content, variables);
      forall u | u in r.versions
        ensures |r.versions[u]| > 0 && r.templates[u] == r.versions[u][|r.versions[u]| - 1]
        ensures forall i :: 0 <= i < |r.versions[u]| ==> r.versions[u][i].number == i + 1
      {
        if u != t { assert u in s.versions && r.versions[u] == s.versions[u]; }
      }
    }
  }

  lemma DeleteStaysConsistent(s: Store, t: TemplateId)
    requires Consistent(s)
    ensures Consistent(Deleted(s, t))
  {
  }

  // ---------------------------------------------------------------------
  // Runs
  // ---------------------------------------------------------------------

  datatype Op =
    | Create(t: TemplateId, content: string, variables: Option<seq<Variable>>)
    | Update(t: TemplateId, content: string, variables: Option<seq<Variable>>)
    | Delete(t: TemplateId)

  const NOTHING := Store(map[], map[])

  function Next(maxTemplates: nat, word: Words, s: Store, op: Op): Store {
    match op
    case Create(t, content, variables) =>
      if |s.templates| >= maxTemplates then s else Created(s, t, content, VariablesFor(word, content, variables))
    case Update(t, content, variables) => Updated(s, t, content, VariablesFor(word, content, variables))
    case Delete(t) => Deleted(s, t)
  }

  function After(maxTemplates: nat, word: Words, s: Store, ops: seq<Op>): Store
    decreases |ops|
  {
    if ops == [] then s else After(maxTemplates, word, Next(maxTemplates, word, s, ops[0]), ops[1..])
  }

  lemma StepStaysConsistent(maxTemplates: nat, word: Words, s: Store, op: Op)
    requires Consistent(s) && |s.templates| <= maxTemplates
    ensures var r := Next(maxTemplates, word, s, op); Consistent(r) && |r.templates| <= maxTemplates
  {
    match op
    case Create(t, content, variables) =>
      CreateStaysConsistent(s, t, content, VariablesFor(word, content, variables));
    case Update(t, content, variables) =>
      UpdateStaysConsistent(s, t, content, VariablesFor(word, content, variables));
      if t in s.templates { assert Next(maxTemplates, word, s, op).templates.Keys == s.templates.Keys; }
    case Delete(t) =>
      DeleteStaysConsistent(s, t);
      if t in s.templates { assert (s.templates - {t}).Keys == s.templates.Keys - {t}; }
  }

  /** Over any run of creations, updates and deletions: every template has its versions 1, 2, ... on
      record and is the last of them, and there are never more templates than the limit. */
  lemma {:induction false} EveryStoreIsConsistent(maxTemplates: nat, word: Words, s: Store, ops: seq<Op>)
    requires Consistent(s) && |s.templates| <= maxTemplates
    ensures Consistent(NOTHING)
    ensures var r := After(maxTemplates, word, s, ops); Consistent(r) && |r.templates| <= maxTemplates
    decreases |ops|
  {
    if ops != [] {
      StepStaysConsistent(maxTemplates, word, s, ops[0]);
      EveryStoreIsConsistent(maxTemplates, word, Next(maxTemplates, word, s, ops[0]), ops[1..]);
    }
  }

  lemma StepKeepsVersion(maxTemplates: nat, word: Words, s: Store, op: Op, t: TemplateId)
    requires Consistent(s) && t in s.templates && (op.t == t ==> op.Update?)
    ensures var r := Next(maxTemplates, word, s, op);
      t in r.templates && t in r.versions && s.versions[t] <= r.versions[t]
  {
  }

  lemma SameRendering(
    word: Words, s: Store, r: Store, t: TemplateId, values: map<string, string>, number: int)
    requires Consistent(s) && Consistent(r) && t in s.templates && t in r.templates
    requires s.versions[t] <= r.versions[t] && number <= s.templates[t].number
    ensures s.templates[t].number <= r.templates[t].number
    ensures Render(word, r, t, values, Some(number)) == Render(word, s, t, values, Some(number))
  {
    assert s.templates[t].number == |s.versions[t]| && r.templates[t].number == |r.versions[t]|;
    FindNumbered(s.versions[t], 1, number);
    FindNumbered(r.versions[t], 1, number);
  }

  /** Versions are immutable over whole runs: as long as the template is not deleted, and identifiers
      of new templates are fresh, a version renders for ever as it does now, whatever is created,
      updated or deleted. */
  lemma {:induction false} VersionsAreImmutable(
    maxTemplates: nat, word: Words, s: Store, ops: seq<Op>, t: TemplateId, values: map<string, string>, number: int)
    requires Consistent(s) && |s.templates| <= maxTemplates
    requires t in s.templates && number <= s.templates[t].number
    requires forall op :: op in ops && op.t == t ==> op.Update?
    ensures var r := After(maxTemplates, word, s, ops);
      && t in r.templates && s.templates[t].number <= r.templates[t].number
      && Render(word, r, t, values, Some(number)) == Render(word, s, t, values, Some(number))
    decreases |ops|
  {
    if ops != [] {
      assert ops[0] in ops;
      var s1 := Next(maxTemplates, word, s, ops[0]);
      StepStaysConsistent(maxTemplates, word, s, ops[0]);
      StepKeepsVersion(maxTemplates, word, s, ops[0], t);
      SameRendering(word, s, s1, t, values, number);
      VersionsAreImmutable(maxTemplates, word, s1, ops[1..], t, values, number);
    }
  }

  // ---------------------------------------------------------------------
  // What versions render to
  // ---------------------------------------------------------------------

  /** A template that is created renders with the variables it was given, be they none at all, or else
      with those detected in its text; until then it is not found, whatever version is asked for. */
  lemma CreatedRenders(
    maxTemplates: nat, word: Words, s: Store, t: TemplateId, content: string, variables: Option<seq<Variable>>,
    values: map<string, string>, version: Option<int>)
    requires Consistent(s) && t !in s.templates && |s.templates| < maxTemplates
    ensures Render(word, s, t, values, version) == NotFound
    ensures var r := Next(maxTemplates, word, s, Create(t, content, variables));
      Render(word, r, t, values, None) ==
        match variables
        case Some(vars) => RenderVersion(word, Version(1, content, vars), values)
        case None => RenderVersion(word, Version(1, content, Detected(word, content)), values)
  {
  }

  /** Rendering without a version is rendering the newest version; a version exists exactly for
      the numbers 1 to the current one. */
  lemma LatestIsCurrent(word: Words, s: Store, t: TemplateId, values: map<string, string>, number: int)
    requires Consistent(s) && t in s.templates
    ensures Render(word, s, t, values, None) == Render(word, s, t, values, Some(s.templates[t].number))
    ensures Render(word, s, t, values, Some(number)).NotFound? <==> !(1 <= number <= s.templates[t].number)
  {
    FindNumbered(s.versions[t], 1, s.templates[t].number);
    FindNumbered(s.versions[t], 1, number);
  }

  /** Versions are immutable: an update adds one, renders as the new text says, and changes the
      rendering of no earlier version and of no other template. */
  lemma HistoryIsKept(
    word: Words, s: Store, t: TemplateId, content: string, variables: seq<Variable>,
    other: TemplateId, values: map<string, string>, number: int)
    requires Consistent(s) && t in s.templates
    ensures var r := Updated(s, t, content, variables);
      && (other != t || number <= s.templates[t].number ==>
            Render(word, r, other, values, Some(number)) == Render(word, s, other, values, Some(number)))
      && Render(word, r, t, values, None)
           == RenderVersion(word, Version(s.templates[t].number + 1, content, variables), values)
  {
    if other == t {
      FindNumbered(s.versions[t], 1, number);
      FindNumbered(Updated(s, t, content, variables).versions[t], 1, number);
    }
  }

  class PromptManager {
    const maxTemplates: nat
    const word: Words
    var templates: map<TemplateId, Version>
    var versions: map<TemplateId, seq<Version>>

    ghost function State(): Store
      reads this
    {
      Store(templates, versions)
    }

    constructor (maxTemplates: nat, word: Words)
      ensures this.maxTemplates == maxTemplates && this.word == word
      ensures State() == NOTHING
    {
      this.maxTemplates, this.word := maxTemplates, word;
      templates, versions := map[], map[];
    }

    /** The generated identifier is a parameter; the answer says whether there was room. */
    method CreateTemplate(t: TemplateId, content: string, variables: Option<seq<Variable>>) returns (created: bool)
      requires t !in templates
      modifies this
      ensures created <==> |old(templates)| < maxTemplates
      ensures State() == Next(maxTemplates, word, old(State()), Create(t, content, variables))
    {
      if |templates| >= maxTemplates {
        return false;
      }
      var vars := VariablesFor(word, content, variables);
      templates := templates[t := Version(1, content, vars)];
      versions := versions[t := [Version(1, content, vars)]];
      return true;
    }

    method UpdateTemplate(t: TemplateId, content: string, variables: Option<seq<Variable>>) returns (found: bool)
      modifies this
      ensures found <==> t in old(templates)
      ensures State() == Next(maxTemplates, word, old(State()), Update(t, content, variables))
    {
      if t !in templates {
        return false;
      }
      AddVersion(t, content, VariablesFor(word, content, variables));
      return true;
    }

    /** The new version of an existing template, once its variables are known. */
    method AddVersion(t: TemplateId, content: string, vars: seq<Variable>)
      requires t in templates
      modifies this
      ensures State() == Updated(old(State()), t, content, vars)
    {
      var v := Version(templates[t].number + 1, content, vars);
      templates := templates[t := v];
      versions := versions[t := (if t in versions then versions[t] else []) + [v]];
    }

    method DeleteTemplate(t: TemplateId) returns (found: bool)
      modifies this
      ensures found <==> t in old(templates)
      ensures State() == Next(maxTemplates, word, old(State()), Delete(t))
    {
      if t !in templates {
        return false;
      }
      templates, versions := templates - {t}, versions - {t};
      return true;
    }

    method RenderTemplate(t: TemplateId, values: map<string, string>, version: Option<int>) returns (r: Result)
      ensures r == Render(word, State(), t, values, version)
    {
      var v: Version;
      if version.Some? {
        var found := FindVersion(if t in versions then versions[t] else [], version.value);
        if found.None? {
          return NotFound;
        }
        v := found.value;
      } else {
        if t !in templates {
          return NotFound;
        }
        v := templates[t];
      }
      var missing := MissingNames(v.variables, values);
      if missing != [] {
        return Missing(missing);
      }
      var sub: map<string, string> := map[];
      for i := 0 to |v.variables|
        invariant sub == Substitution(v.variables[..i], values)
      {
        assert v.variables[..i + 1][..i] == v.variables[..i];
        var x := v.variables[i];
        sub := sub[x.name := if x.name in values then values[x.name] else x.defaultValue];
      }
      assert v.variables[..|v.variables|] == v.variables;
      return Rendered(Fill(Scan(word, v.content), sub));
    }
  }
}
