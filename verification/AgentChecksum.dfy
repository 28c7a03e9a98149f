/** The checksum that identifies what an agent runs: its type and the canonical JSON of its inputs, hashed
    together. */
module AgentChecksum {
  import opened Wrappers
  import Encoding = Text
  import opened CanonicalJson
  import opened JsonText

  datatype AgentType = Llm | McpServer | RuleBot | Browser | OpenAiAssistant | Framework | Custom

  function ParseType(s: string): Option<AgentType>
  {
    if s in ["llm", "llm_agent"] then Some(Llm)
    else if s in ["mcp", "mcp_server"] then Some(McpServer)
    else if s in ["rule_bot", "rule", "bot"] then Some(RuleBot)
    else if s in ["browser", "browser_automation"] then Some(Browser)
    else if s in ["openai_assistant", "assistants"] then Some(OpenAiAssistant)
    else if s in ["framework", "langchain", "llamaindex"] then Some(Framework)
    else if s == "custom" then Some(Custom)
    else None
  }

  function Name(t: AgentType): string
  {
    match t
    case Llm => "llm"
    case McpServer => "mcp_server"
    case RuleBot => "rule_bot"
    case Browser => "browser"
    case OpenAiAssistant => "openai_assistant"
    case Framework => "framework"
    case Custom => "custom"
  }

  function RequiredFields(t: AgentType): seq<string>
  {
    match t
    case Llm => ["model_id", "system_prompt", "tools"]
    case McpServer => ["manifest_json", "tool_signatures"]
    case RuleBot => ["image_sha"]
    case Browser => ["script_sha", "lockfile_sha"]
    case OpenAiAssistant => ["assistant_id", "instructions", "tools", "model"]
    case Framework => ["code_sha", "lockfile_sha"]
    case Custom => []
  }

  lemma NamesDiffer(a: AgentType, b: AgentType)
    requires Name(a) == Name(b)
    ensures a == b
  {
    assert |Name(Llm)| == 3 && |Name(McpServer)| == 10 && |Name(RuleBot)| == 8 && |Name(Browser)| == 7;
    assert |Name(OpenAiAssistant)| == 16 && |Name(Framework)| == 9 && |Name(Custom)| == 6;
  }

  lemma NameHasNoBar(t: AgentType)
    ensures '|' !in Name(t)
  {
  }

  /** What is hashed. */
  function Preimage(t: AgentType, inputs: Value): seq<Byte>
  {
    Encoding.Utf8(Name(t) + "|" + Print(Canon(inputs)))
  }

  lemma {:induction false} CanonPrintable(v: Value)
    requires Printable(v)
    ensures Printable(Canon(v))
    decreases v
  {
    match v {
      case Array(items) =>
        forall i | 0 <= i < |items|
          ensures Printable(Canon(items[i]))
        {
          CanonPrintable(items[i]);
        }
      case Object(fields) =>
        var r := Canon(v).fields;
        forall k | 0 <= k < |r|
          ensures Printable(r[k].value)
        {
          SortedMembers(CanonFields(v), r[k]);
          var i :| 0 <= i < |fields| && CanonFields(v)[i] == r[k];
          CanonPrintable(fields[i].value);
        }
      case _ =>
    }
  }

  lemma BarCancels(a: string, b: string, x: string, y: string)
    requires '|' !in a && '|' !in b && a + "|" + x == b + "|" + y
    ensures a == b && x == y
  {
    BarNotLater(a, b, x, y);
    BarNotLater(b, a, y, x);
    assert a == (a + "|" + x)[..|a|] && b == (b + "|" + y)[..|b|];
    assert x == (a + "|" + x)[|a| + 1..] && y == (b + "|" + y)[|b| + 1..];
  }

  lemma BarNotLater(a: string, b: string, x: string, y: string)
    requires '|' !in b && a + "|" + x == b + "|" + y
    ensures |b| <= |a|
  {
    assert (a + "|" + x)[|a|] == '|';
    assert forall i :: 0 <= i < |b| ==> (b + "|" + y)[i] == b[i] && b[i] in b;
  }

  /** Two preimages are equal exactly if the types are equal and the inputs differ in key order only. */
  lemma PreimageEqualIff(s: AgentType, t: AgentType, u: Value, v: Value)
    requires DistinctKeys(u) && DistinctKeys(v) && Printable(u) && Printable(v)
    ensures Preimage(s, u) == Preimage(t, v) <==> s == t && Same(u, v)
  {
    CanonEqualIff(u, v);
    if Preimage(s, u) == Preimage(t, v) {
      Encoding.Utf8Injective(Name(s) + "|" + Print(Canon(u)), Name(t) + "|" + Print(Canon(v)));
      NameHasNoBar(s);
      NameHasNoBar(t);
      BarCancels(Name(s), Name(t), Print(Canon(u)), Print(Canon(v)));
      NamesDiffer(s, t);
      CanonPrintable(u);
      CanonPrintable(v);
      PrintInjective(Canon(u), Canon(v));
    }
  }

  datatype ChecksumError =
    | UnknownType(name: string)
    | MissingField(agentType: string, field: string)
    | NotAnObject

  /** The field is absent or null. */
  predicate Missing(inputs: Value, field: string)
    requires inputs.Object?
  {
    var v := Lookup(inputs.fields, field);
    v.None? || v.value.Null?
  }

  /** `digest` is the SHA-256 of the bytes, in hex. */
  method ComputeChecksum(agentType: string, inputs: Value, digest: seq<Byte> -> string)
    returns (r: Result<(string, string), ChecksumError>)
    ensures ParseType(agentType).None? ==> r == Err(UnknownType(agentType))
    ensures ParseType(agentType).Some? && !inputs.Object? ==> r == Err(NotAnObject)
    ensures ParseType(agentType).Some? && inputs.Object? ==>
      var t := ParseType(agentType).value; var required := RequiredFields(t);
      && (r.Ok? <==> forall i :: 0 <= i < |required| ==> !Missing(inputs, required[i]))
      && (r.Ok? ==> r.value.0 == Print(Canon(inputs)) && r.value.1 == "sha256:" + digest(Preimage(t, inputs)))
      && (r.Err? ==> exists i :: 0 <= i < |required| && r.error == MissingField(Name(t), required[i]) && Missing(inputs, required[i])
                                 && forall j :: 0 <= j < i ==> !Missing(inputs, required[j]))
  {
    var kind := ParseType(agentType);
    if kind.None? {
      return Err(UnknownType(agentType));
    }
    if !inputs.Object? {
      return Err(NotAnObject);
    }
    var required := RequiredFields(kind.value);
    var i := 0;
    while i < |required|
      invariant 0 <= i <= |required|
      invariant forall j :: 0 <= j < i ==> !Missing(inputs, required[j])
    {
      if Missing(inputs, required[i]) {
        return Err(MissingField(Name(kind.value), required[i]));
      }
      i := i + 1;
    }
    return Ok((Print(Canon(inputs)), "sha256:" + digest(Preimage(kind.value, inputs))));
  }

  lemma SameMissing(u: Value, v: Value, field: string)
    requires u.Object? && DistinctKeys(u) && DistinctKeys(v) && Same(u, v)
    ensures v.Object? && (Missing(u, field) <==> Missing(v, field))
  {
    CanonEqualIff(u, v);
    CanonLookup(u, field);
    CanonLookup(v, field);
    CanonKeepsNull(u, field);
    CanonKeepsNull(v, field);
  }

  lemma CanonKeepsNull(v: Value, field: string)
    requires v.Object?
    ensures Lookup(v.fields, field).Some? ==>
              (Canon(Lookup(v.fields, field).value).Null? <==> Lookup(v.fields, field).value.Null?)
  {
  }

  /** Two accepted descriptions of an agent get one checksum exactly if they name the same type and inputs that
      differ in key order only, as long as the hash does not collide on them; and then one is accepted
      exactly if the other is. */
  lemma ChecksumEqualIff(s: AgentType, t: AgentType, u: Value, v: Value, digest: seq<Byte> -> string)
    requires u.Object? && v.Object? && DistinctKeys(u) && DistinctKeys(v) && Printable(u) && Printable(v)
    requires digest(Preimage(s, u)) == digest(Preimage(t, v)) ==> Preimage(s, u) == Preimage(t, v)
    ensures "sha256:" + digest(Preimage(s, u)) == "sha256:" + digest(Preimage(t, v)) <==> s == t && Same(u, v)
    ensures Same(u, v) ==> forall field :: Missing(u, field) <==> Missing(v, field)
  {
    PreimageEqualIff(s, t, u, v);
    var p, q := digest(Preimage(s, u)), digest(Preimage(t, v));
    assert p == ("sha256:" + p)[7..] && q == ("sha256:" + q)[7..];
    if Same(u, v) {
      forall field
        ensures Missing(u, field) <==> Missing(v, field)
      {
        SameMissing(u, v, field);
      }
    }
  }
}
