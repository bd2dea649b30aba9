/** Rendering a runbook's command: finding the tokens of the template and quoting the values. */
module Runbook {
  import opened Common

  // ---- Tokens of a template ----

  predicate NameStart(c: char) { 'a' <= c <= 'z' || 'A' <= c <= 'Z' || c == '_' }

  predicate NameChar(c: char) { NameStart(c) || '0' <= c <= '9' }

  function NameEnd(t: string, i: nat): (e: nat)
    requires i <= |t|
    ensures i <= e <= |t|
    ensures forall j | i <= j < e :: NameChar(t[j])
    ensures e < |t| ==> !NameChar(t[e])
    decreases |t| - i
  {
    if i < |t| && NameChar(t[i]) then NameEnd(t, i + 1) else i
  }

  /** Whether a token ${name} stands at i. */
  predicate TokenHere(t: string, i: nat) {
    && i + 2 < |t| && t[i] == '$' && t[i + 1] == '{' && NameStart(t[i + 2])
    && NameEnd(t, i + 2) < |t| && t[NameEnd(t, i + 2)] == '}'
  }

  datatype Segment = Lit(c: char) | Hole(name: string)

  /** Just after the segment that begins at i. */
  function SegmentEnd(t: string, i: nat): (e: nat)
    requires i < |t|
    ensures i < e <= |t|
  {
    if TokenHere(t, i) then NameEnd(t, i + 2) + 1 else i + 1
  }

  function SegmentAt(t: string, i: nat): Segment
    requires i < |t|
  {
    if TokenHere(t, i) then Hole(t[i + 2..NameEnd(t, i + 2)]) else Lit(t[i])
  }

  /** The template from i on, leftmost tokens first. */
  function Segments(t: string, i: nat): seq<Segment>
    requires i <= |t|
    decreases |t| - i
  {
    if i == |t| then [] else [SegmentAt(t, i)] + Segments(t, SegmentEnd(t, i))
  }

  function Written(segment: Segment): string {
    match segment
    case Lit(c) => [c]
    case Hole(name) => "${" + name + "}"
  }

  function Unparse(segments: seq<Segment>): string {
    if |segments| == 0 then "" else Written(segments[0]) + Unparse(segments[1..])
  }

  lemma UnparseCons(segment: Segment, rest: seq<Segment>)
    ensures Unparse([segment] + rest) == Written(segment) + Unparse(rest)
  {
    assert ([segment] + rest)[1..] == rest;
  }

  lemma SegmentText(t: string, i: nat)
    requires i < |t|
    ensures t[i..SegmentEnd(t, i)] == Written(SegmentAt(t, i))
  {
    if TokenHere(t, i) {
      var e := NameEnd(t, i + 2);
      assert t[i..e + 1] == [t[i], t[i + 1]] + t[i + 2..e] + [t[e]];
    }
  }

  /** The segments are the template, cut at its tokens. */
  lemma {:induction false} SegmentsAreTheTemplate(t: string, i: nat)
    requires i <= |t|
    ensures Unparse(Segments(t, i)) == t[i..]
    decreases |t| - i
  {
    if i == |t| {
    } else {
      var next := SegmentEnd(t, i);
      SegmentsAreTheTemplate(t, next);
      UnparseCons(SegmentAt(t, i), Segments(t, next));
      SplitAt(t, i, next);
      SegmentText(t, i);
    }
  }

  /** A name in braces after a dollar sign stands at k: letters, digits and underscores, no digit first. */
  predicate Token(t: string, k: nat, name: string) {
    && k + |name| + 3 <= |t| && t[k..k + |name| + 3] == "${" + name + "}"
    && name != "" && !('0' <= name[0] <= '9')
    && forall c | c in name :: 'a' <= c <= 'z' || 'A' <= c <= 'Z' || '0' <= c <= '9' || c == '_'
  }

  lemma {:induction false} NameEndAt(t: string, i: nat, e: nat)
    requires i <= e <= |t| && (forall j | i <= j < e :: NameChar(t[j])) && (e < |t| ==> !NameChar(t[e]))
    ensures NameEnd(t, i) == e
    decreases e - i
  {
    if i == e {
    } else {
      NameEndAt(t, i + 1, e);
    }
  }

  lemma TokenStands(t: string, k: nat, name: string)
    requires Token(t, k, name)
    ensures TokenHere(t, k) && NameEnd(t, k + 2) == k + 2 + |name| && t[k + 2..NameEnd(t, k + 2)] == name
  {
    var e := k + 2 + |name|;
    var text := t[k..e + 1];
    assert text[0] == t[k] && text[1] == t[k + 1] && text[|text| - 1] == t[e];
    forall j | k + 2 <= j < e ensures t[j] == name[j - k - 2] && NameChar(t[j]) {
      assert text[j - k] == t[j] && name[j - k - 2] in name;
    }
    NameEndAt(t, k + 2, e);
  }

  /** Every token of the template is a segment of its own, at its place. */
  lemma {:induction false} TokenIsSegment(t: string, i: nat, k: nat, name: string) returns (m: nat)
    requires i <= k && Token(t, k, name)
    ensures m < |Segments(t, i)| && Segments(t, i)[m] == Hole(name) && Unparse(Segments(t, i)[..m]) == t[i..k]
    decreases k - i
  {
    TokenStands(t, k, name);
    if i == k {
      m := 0;
    } else {
      var next := SegmentEnd(t, i);
      assert t[k] == '$';
      var rest := TokenIsSegment(t, next, k, name);
      m := rest + 1;
      SegmentStep(t, i, rest);
      assert t[i..k] == t[i..next] + t[next..k];
    }
  }

  lemma SegmentStep(t: string, i: nat, m: nat)
    requires i < |t| && m < |Segments(t, SegmentEnd(t, i))|
    ensures var rest := Segments(t, SegmentEnd(t, i));
            && Segments(t, i)[m + 1] == rest[m]
            && Unparse(Segments(t, i)[..m + 1]) == t[i..SegmentEnd(t, i)] + Unparse(rest[..m])
  {
    var segment, rest := SegmentAt(t, i), Segments(t, SegmentEnd(t, i));
    assert ([segment] + rest)[..m + 1] == [segment] + rest[..m];
    UnparseCons(segment, rest[..m]);
    SegmentText(t, i);
  }

  /** And every such segment is a token, at its place. */
  lemma {:induction false} SegmentIsToken(t: string, i: nat, m: nat)
    requires i <= |t| && m < |Segments(t, i)| && Segments(t, i)[m].Hole?
    ensures Token(t, i + |Unparse(Segments(t, i)[..m])|, Segments(t, i)[m].name)
    decreases |t| - i
  {
    var next := SegmentEnd(t, i);
    if m == 0 {
      SegmentText(t, i);
      assert Segments(t, i)[..0] == [];
    } else {
      SegmentStep(t, i, m - 1);
      SegmentIsToken(t, next, m - 1);
    }
  }

  // ---- Rendering ----

  /** Each single quote closes the quoting, adds an escaped quote, and opens it again. */
  function EscapeQuotes(value: string): string {
    if |value| == 0 then "" else (if value[0] == '\'' then "'\\''" else [value[0]]) + EscapeQuotes(value[1..])
  }

  function ShellQuote(value: string): string { "'" + EscapeQuotes(value) + "'" }

  predicate Covered(segments: seq<Segment>, values: map<string, string>) {
    forall i | 0 <= i < |segments| :: segments[i].Hole? ==> segments[i].name in values
  }

  /** The template with each token replaced by its quoted value; the replacement text is not looked at again. */
  function Render(segments: seq<Segment>, values: map<string, string>): string
    requires Covered(segments, values)
  {
    if |segments| == 0 then ""
    else
      (match segments[0] case Lit(c) => [c] case Hole(name) => ShellQuote(values[name])) + Render(segments[1..], values)
  }

  // ---- Parameters ----

  datatype ParamType = Text | Integer | Number | Boolean | Enum

  datatype Parameter = Parameter(name: string, kind: ParamType, default: string, allowed: seq<string>, required: bool)

  datatype ParamError =
    | Unknown(name: string)
    | BadValue(name: string)
    | MissingRequired(name: string)
    | MissingToken(name: string)

  datatype Outcome<T> = Ok(value: T) | Err(error: ParamError)

  predicate IsDigit(c: char) { '0' <= c <= '9' }

  predicate AllDigits(s: string) { |s| > 0 && forall i | 0 <= i < |s| :: IsDigit(s[i]) }

  /** An optional minus sign and at least one digit. */
  predicate IntegerText(s: string) { AllDigits(s) || (|s| > 0 && s[0] == '-' && AllDigits(s[1..])) }

  function Dots(s: string): nat { if |s| == 0 then 0 else Dots(s[..|s| - 1]) + (if s[|s| - 1] == '.' then 1 else 0) }

  predicate NumberText(s: string) {
    && s != "" && s != "-" && Dots(s) <= 1
    && forall i | 0 <= i < |s| :: s[i] == '.' || IsDigit(s[i]) || (i == 0 && s[i] == '-')
  }

  /** What a value of the parameter may be. */
  predicate ValueOk(p: Parameter, value: string) {
    && (p.kind == Integer ==> IntegerText(value))
    && (p.kind == Number ==> NumberText(value))
    && (p.kind == Boolean ==> value == "true" || value == "false")
    && (|p.allowed| > 0 ==> value in p.allowed)
  }

  /** At most one point, counted or by its places. */
  lemma {:induction false} DotsExactly(s: string)
    ensures Dots(s) == 0 <==> forall i | 0 <= i < |s| :: s[i] != '.'
    ensures Dots(s) <= 1 <==> forall i, j | 0 <= i < j < |s| :: s[i] != '.' || s[j] != '.'
  {
    if |s| == 0 {
    } else {
      var init := s[..|s| - 1];
      DotsExactly(init);
      assert forall i | 0 <= i < |init| :: init[i] == s[i];
    }
  }

  /** Digits after an optional minus sign; at most one point among them; true or false; one of the allowed values. */
  method ValidateParameterValue(p: Parameter, value: string) returns (ok: bool)
    ensures ok <==> ValueOk(p, value)
    ensures ok <==>
              && (p.kind == Integer ==>
                    && value != "" && value != "-"
                    && forall i | 0 <= i < |value| :: '0' <= value[i] <= '9' || (i == 0 && value[i] == '-'))
              && (p.kind == Number ==>
                    && value != "" && value != "-"
                    && (forall i | 0 <= i < |value| ::
                          '0' <= value[i] <= '9' || value[i] == '.' || (i == 0 && value[i] == '-'))
                    && (forall i, j | 0 <= i < j < |value| :: value[i] != '.' || value[j] != '.'))
              && (p.kind == Boolean ==> value == "true" || value == "false")
              && (p.allowed == [] || value in p.allowed)
  {
    DotsExactly(value);
    match p.kind {
      case Text =>
      case Enum =>
      case Integer =>
        var i := 0;
        while i < |value|
          invariant 0 <= i <= |value|
          invariant forall j | 0 <= j < i :: IsDigit(value[j]) || (j == 0 && value[j] == '-')
        {
          if !IsDigit(value[i]) && !(i == 0 && value[i] == '-') {
            assert i > 0 ==> value[1..][i - 1] == value[i];
            return false;
          }
          i := i + 1;
        }
        if value == "" || value == "-" {
          return false;
        }
        assert value[0] == '-' ==> AllDigits(value[1..]);
      case Number =>
        var dots, i := 0, 0;
        while i < |value|
          invariant 0 <= i <= |value|
          invariant dots == Dots(value[..i])
          invariant forall j | 0 <= j < i :: value[j] == '.' || IsDigit(value[j]) || (j == 0 && value[j] == '-')
        {
          assert value[..i + 1][..i] == value[..i];
          if value[i] == '.' {
            dots := dots + 1;
          } else if !IsDigit(value[i]) && !(i == 0 && value[i] == '-') {
            return false;
          }
          i := i + 1;
        }
        assert value[..i] == value;
        if value == "" || value == "-" || dots > 1 {
          return false;
        }
      case Boolean =>
        if value != "true" && value != "false" {
          return false;
        }
    }
    if |p.allowed| > 0 {
      var allowed := false;
      var i := 0;
      while i < |p.allowed| && !allowed
        invariant 0 <= i <= |p.allowed|
        invariant allowed <==> value in p.allowed[..i]
      {
        allowed := value == p.allowed[i];
        i := i + 1;
      }
      assert p.allowed[..|p.allowed|] == p.allowed;
      assert allowed ==> value in p.allowed;
      return allowed;
    }
    return true;
  }

  /** The last definition of a name counts. */
  function Definitions(ps: seq<Parameter>): map<string, Parameter> {
    if |ps| == 0 then map[] else Definitions(ps[..|ps| - 1])[ps[|ps| - 1].name := ps[|ps| - 1]]
  }

  /** The last default that is not empty counts. */
  function Defaults(ps: seq<Parameter>): map<string, string> {
    if |ps| == 0 then map[]
    else
      var p := ps[|ps| - 1];
      var before := Defaults(ps[..|ps| - 1]);
      if p.default != "" then before[p.name := p.default] else before
  }

  /** The i-th parameter is the last one of that name. */
  predicate DefinedAt(ps: seq<Parameter>, i: int, name: string) {
    0 <= i < |ps| && ps[i].name == name && forall j | i < j < |ps| :: ps[j].name != name
  }

  /** The i-th parameter gives the last default of that name that is not empty. */
  predicate DefaultAt(ps: seq<Parameter>, i: int, name: string) {
    && 0 <= i < |ps| && ps[i].name == name && ps[i].default != ""
    && forall j | i < j < |ps| && ps[j].name == name :: ps[j].default == ""
  }

  lemma {:induction false} DefinitionIs(ps: seq<Parameter>, i: int, name: string)
    requires DefinedAt(ps, i, name)
    ensures name in Definitions(ps) && Definitions(ps)[name] == ps[i]
  {
    var n := |ps| - 1;
    if i == n {
    } else {
      assert ps[n].name != name && forall j | i < j < n :: ps[..n][j] == ps[j];
      DefinitionIs(ps[..n], i, name);
    }
  }

  lemma {:induction false} LastDefinition(ps: seq<Parameter>, k: nat) returns (i: int)
    requires k < |ps|
    ensures DefinedAt(ps, i, ps[k].name)
    decreases |ps| - k
  {
    if j :| k < j < |ps| && ps[j].name == ps[k].name {
      i := LastDefinition(ps, j);
    } else {
      i := k;
    }
  }

  lemma DefinitionsAt(ps: seq<Parameter>, name: string)
    ensures name in Definitions(ps) <==> exists i :: 0 <= i < |ps| && ps[i].name == name
    ensures name in Definitions(ps) <==> exists i :: DefinedAt(ps, i, name)
    ensures forall i | DefinedAt(ps, i, name) :: name in Definitions(ps) && Definitions(ps)[name] == ps[i]
  {
    forall i | DefinedAt(ps, i, name) ensures name in Definitions(ps) && Definitions(ps)[name] == ps[i] {
      DefinitionIs(ps, i, name);
    }
    if k :| 0 <= k < |ps| && ps[k].name == name {
      var i := LastDefinition(ps, k);
    } else {
      NoDefinition(ps, name);
    }
  }

  lemma {:induction false} NoDefinition(ps: seq<Parameter>, name: string)
    requires forall i | 0 <= i < |ps| :: ps[i].name != name
    ensures name !in Definitions(ps)
  {
    if |ps| == 0 {
    } else {
      NoDefinition(ps[..|ps| - 1], name);
    }
  }

  lemma {:induction false} DefaultIs(ps: seq<Parameter>, i: int, name: string)
    requires DefaultAt(ps, i, name)
    ensures name in Defaults(ps) && Defaults(ps)[name] == ps[i].default
  {
    var n := |ps| - 1;
    if i == n {
    } else {
      assert forall j | i < j < n :: ps[..n][j] == ps[j];
      DefaultIs(ps[..n], i, name);
    }
  }

  lemma {:induction false} DefaultComesFrom(ps: seq<Parameter>, name: string) returns (i: int)
    requires name in Defaults(ps)
    ensures DefaultAt(ps, i, name)
  {
    var n := |ps| - 1;
    if ps[n].name == name && ps[n].default != "" {
      i := n;
    } else {
      i := DefaultComesFrom(ps[..n], name);
      assert forall j | 0 <= j < n :: ps[..n][j] == ps[j];
    }
  }

  lemma {:induction false} LastDefault(ps: seq<Parameter>, k: nat) returns (i: int)
    requires k < |ps| && ps[k].default != ""
    ensures DefaultAt(ps, i, ps[k].name)
    decreases |ps| - k
  {
    if j :| k < j < |ps| && ps[j].name == ps[k].name && ps[j].default != "" {
      i := LastDefault(ps, j);
    } else {
      i := k;
    }
  }

  lemma DefaultsAt(ps: seq<Parameter>, name: string)
    ensures name in Defaults(ps) <==> exists i :: 0 <= i < |ps| && ps[i].name == name && ps[i].default != ""
    ensures name in Defaults(ps) <==> exists i :: DefaultAt(ps, i, name)
    ensures forall i | DefaultAt(ps, i, name) :: name in Defaults(ps) && Defaults(ps)[name] == ps[i].default
  {
    forall i | DefaultAt(ps, i, name) ensures name in Defaults(ps) && Defaults(ps)[name] == ps[i].default {
      DefaultIs(ps, i, name);
    }
    if name in Defaults(ps) {
      var i := DefaultComesFrom(ps, name);
    } else if k :| 0 <= k < |ps| && ps[k].name == name && ps[k].default != "" {
      var i := LastDefault(ps, k);
    }
  }

  function Resolved(ps: seq<Parameter>, params: map<string, string>): map<string, string> { Defaults(ps) + params }

  function ValueOf(values: map<string, string>, name: string): string { if name in values then values[name] else "" }

  /** Every given value is taken as it is, every other name has its last default, and there is nothing else. */
  ghost predicate Settles(ps: seq<Parameter>, params: map<string, string>, values: map<string, string>) {
    && (forall name | name in params :: name in values && values[name] == params[name])
    && (forall i, name | DefaultAt(ps, i, name) && name !in params :: name in values && values[name] == ps[i].default)
    && (forall name | name in values :: name in params || exists i :: DefaultAt(ps, i, name))
  }

  lemma ResolvedSettles(ps: seq<Parameter>, params: map<string, string>)
    ensures Settles(ps, params, Resolved(ps, params))
  {
    forall name
      ensures name in Defaults(ps) <==> exists i :: DefaultAt(ps, i, name)
      ensures forall i | DefaultAt(ps, i, name) :: name in Defaults(ps) && Defaults(ps)[name] == ps[i].default
    {
      DefaultsAt(ps, name);
    }
  }

  /** Only one map does. */
  lemma SettledOnce(ps: seq<Parameter>, params: map<string, string>, v: map<string, string>, w: map<string, string>)
    requires Settles(ps, params, v) && Settles(ps, params, w)
    ensures v == w
  {
    forall name | name in v ensures name in w && w[name] == v[name] {
      if name !in params {
        var i :| DefaultAt(ps, i, name);
      }
    }
    forall name | name in w ensures name in v {
      if name !in params {
        var i :| DefaultAt(ps, i, name);
      }
    }
  }

  /** Whether the error is a true complaint about these parameters. */
  ghost predicate Complaint(ps: seq<Parameter>, template: string, params: map<string, string>, e: ParamError) {
    match e
    case Unknown(name) => name in params && forall i | 0 <= i < |ps| :: ps[i].name != name
    case BadValue(name) => name in params && exists i :: DefinedAt(ps, i, name) && !ValueOk(ps[i], params[name])
    case MissingRequired(name) =>
      && (exists i :: 0 <= i < |ps| && ps[i].required && ps[i].name == name)
      && if name in params then Blank(params[name]) else forall i | DefaultAt(ps, i, name) :: Blank(ps[i].default)
    case MissingToken(name) =>
      && Hole(name) in Segments(template, 0)
      && name !in params && forall i | 0 <= i < |ps| && ps[i].name == name :: ps[i].default == ""
  }

  /** The complaints in terms of the maps that the loops build. */
  lemma ComplaintIs(ps: seq<Parameter>, template: string, params: map<string, string>, e: ParamError)
    ensures Complaint(ps, template, params, e) <==>
              match e
              case Unknown(name) => name in params && name !in Definitions(ps)
              case BadValue(name) =>
                name in params && name in Definitions(ps) && !ValueOk(Definitions(ps)[name], params[name])
              case MissingRequired(name) =>
                && Blank(ValueOf(Resolved(ps, params), name))
                && exists i :: 0 <= i < |ps| && ps[i].required && ps[i].name == name
              case MissingToken(name) => name !in Resolved(ps, params) && Hole(name) in Segments(template, 0)
  {
    DefinitionsAt(ps, e.name);
    DefaultsAt(ps, e.name);
    if e.BadValue? && e.name in Definitions(ps) {
      var i :| DefinedAt(ps, i, e.name);
    }
    if e.MissingRequired? && e.name !in params && e.name in Defaults(ps) {
      var i :| DefaultAt(ps, i, e.name);
    }
  }

  /** Loops over the parameters in any order, as ranging over a map does. */
  method ValidateParams(ps: seq<Parameter>, template: string, params: map<string, string>)
    returns (r: Outcome<map<string, string>>)
    ensures r.Ok? <==> forall e: ParamError :: !Complaint(ps, template, params, e)
    ensures r.Ok? ==> r.value == Resolved(ps, params) && Covered(Segments(template, 0), r.value)
    ensures r.Ok? ==>
              && (forall name | name in params :: name in r.value && r.value[name] == params[name])
              && (forall i, name | DefaultAt(ps, i, name) && name !in params ::
                    name in r.value && r.value[name] == ps[i].default)
              && (forall name | name in r.value :: name in params || exists i :: DefaultAt(ps, i, name))
    ensures r.Err? ==> Complaint(ps, template, params, r.error)
  {
    ResolvedSettles(ps, params);
    forall e: ParamError {
      ComplaintIs(ps, template, params, e);
    }
    var resolved, definitions := Defining(ps);
    var name := FirstUnknown(definitions, params);
    if name.Some? {
      assert Complaint(ps, template, params, Unknown(name.value));
      return Err(Unknown(name.value));
    }
    name, resolved := Overriding(definitions, params, resolved);
    if name.Some? {
      assert Complaint(ps, template, params, BadValue(name.value));
      return Err(BadValue(name.value));
    }
    name := FirstMissing(ps, resolved);
    if name.Some? {
      assert Complaint(ps, template, params, MissingRequired(name.value));
      return Err(MissingRequired(name.value));
    }
    name := FirstUnbound(Segments(template, 0), resolved);
    if name.Some? {
      assert Complaint(ps, template, params, MissingToken(name.value));
      return Err(MissingToken(name.value));
    }
    return Ok(resolved);
  }

  method FirstUnknown(definitions: map<string, Parameter>, params: map<string, string>) returns (name: Option<string>)
    ensures name.Some? ==> name.value in params && name.value !in definitions
    ensures name.None? ==> params.Keys <= definitions.Keys
  {
    var todo := params.Keys;
    while todo != {}
      invariant todo <= params.Keys
      invariant forall n | n in params && n !in todo :: n in definitions
    {
      var n :| n in todo;
      if n !in definitions {
        return Some(n);
      }
      todo := todo - {n};
    }
    return None;
  }

  /** Checks each given value and lets it take the place of the default. */
  method Overriding(definitions: map<string, Parameter>, params: map<string, string>, defaults: map<string, string>)
    returns (name: Option<string>, resolved: map<string, string>)
    requires params.Keys <= definitions.Keys
    ensures name.Some? ==> name.value in params && !ValueOk(definitions[name.value], params[name.value])
    ensures name.None? ==> resolved == defaults + params && forall n | n in params :: ValueOk(definitions[n], params[n])
  {
    resolved := defaults;
    var todo := params.Keys;
    while todo != {}
      invariant todo <= params.Keys
      invariant forall n | n in params && n !in todo :: ValueOk(definitions[n], params[n])
      invariant resolved.Keys == defaults.Keys + (params.Keys - todo)
      invariant forall n | n in resolved ::
                  if n in params && n !in todo then resolved[n] == params[n]
                      else n in defaults && resolved[n] == defaults[n]
    {
      var n :| n in todo;
      var ok := ValidateParameterValue(definitions[n], params[n]);
      if !ok {
        return Some(n), resolved;
      }
      resolved := resolved[n := params[n]];
      todo := todo - {n};
    }
    return None, resolved;
  }

  method Defining(ps: seq<Parameter>) returns (resolved: map<string, string>, definitions: map<string, Parameter>)
    ensures resolved == Defaults(ps) && definitions == Definitions(ps)
  {
    resolved, definitions := map[], map[];
    var i := 0;
    while i < |ps|
      invariant 0 <= i <= |ps|
      invariant resolved == Defaults(ps[..i]) && definitions == Definitions(ps[..i])
    {
      assert ps[..i + 1][..i] == ps[..i];
      definitions := definitions[ps[i].name := ps[i]];
      if ps[i].default != "" {
        resolved := resolved[ps[i].name := ps[i].default];
      }
      i := i + 1;
    }
    assert ps[..i] == ps;
  }

  method FirstMissing(ps: seq<Parameter>, resolved: map<string, string>) returns (name: Option<string>)
    ensures name.Some? ==> Blank(ValueOf(resolved, name.value)) && exists i ::
              0 <= i < |ps| && ps[i].required && ps[i].name == name.value
    ensures name.None? ==> forall i | 0 <= i < |ps| && ps[i].required :: !Blank(ValueOf(resolved, ps[i].name))
  {
    var i := 0;
    while i < |ps|
      invariant 0 <= i <= |ps|
      invariant forall j | 0 <= j < i && ps[j].required :: !Blank(ValueOf(resolved, ps[j].name))
    {
      if ps[i].required && Blank(ValueOf(resolved, ps[i].name)) {
        return Some(ps[i].name);
      }
      i := i + 1;
    }
    return None;
  }

  method FirstUnbound(segments: seq<Segment>, resolved: map<string, string>) returns (name: Option<string>)
    ensures name.Some? ==> name.value !in resolved && Hole(name.value) in segments
    ensures name.None? <==> Covered(segments, resolved)
  {
    var i := 0;
    while i < |segments|
      invariant 0 <= i <= |segments|
      invariant forall j | 0 <= j < i && segments[j].Hole? :: segments[j].name in resolved
    {
      if segments[i].Hole? && segments[i].name !in resolved {
        return Some(segments[i].name);
      }
      i := i + 1;
    }
    return None;
  }

  method RenderCommand(ps: seq<Parameter>, template: string, params: map<string, string>) returns (r: Outcome<string>)
    ensures r.Err? ==> Complaint(ps, template, params, r.error)
    ensures r.Ok? ==>
              && (forall e: ParamError :: !Complaint(ps, template, params, e))
              && Covered(Segments(template, 0), Resolved(ps, params))
              && r.value == Render(Segments(template, 0), Resolved(ps, params))
    ensures r.Ok? ==>
              forall values | Settles(ps, params, values) ::
                Covered(Segments(template, 0), values) && r.value == Render(Segments(template, 0), values)
    ensures Settles(ps, params, Resolved(ps, params))
  {
    ResolvedSettles(ps, params);
    forall values | Settles(ps, params, values) ensures values == Resolved(ps, params) {
      SettledOnce(ps, params, values, Resolved(ps, params));
    }
    var resolved := ValidateParams(ps, template, params);
    if resolved.Err? {
      return Err(resolved.error);
    }
    return Ok(Render(Segments(template, 0), resolved.value));
  }
}
