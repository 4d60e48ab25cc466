/**
 * The registry of parameter-value processors: a map from name to
 * processor, filled with the five built-in processors and then with the
 * application's own, looked up by name with "default" as the fallback, and
 * used so that a processor that throws leaves the value as it was.
 */
module ProcessorManagers {
  import opened Text
  import opened Values
  import opened BuiltinProcessors
  import opened CustomProcessors

  /** What a processor does; a PluginKind is a processor this model does not see, known by an id. */
  datatype Kind =
    | DefaultKind
    | HashKind
    | MaskKind
    | NormalizeKind
    | SplitKind
    | CustomOrderKind
    | CustomCollectionKind
    | PluginKind(id: nat)

  /** A processor: what getName returns, and what processValue does. */
  datatype Processor = Processor(name: Option<string>, kind: Kind)

  const DefaultProcessor := Processor(Some(DefaultName), DefaultKind)
  const HashProcessor := Processor(Some(HashName), HashKind)
  const MaskProcessor := Processor(Some(MaskName), MaskKind)
  const NormalizeProcessor := Processor(Some(NormalizeName), NormalizeKind)
  const SplitProcessor := Processor(Some(SplitName), SplitKind)
  const CustomOrderProcessor := Processor(Some(CustomOrderName), CustomOrderKind)
  const CustomCollectionProcessor := Processor(Some(CustomCollectionName), CustomCollectionKind)

  /** What the model takes from outside: the MD5 hex digest, and what each plugin does with a value. */
  datatype Env = Env(md5: string -> string, plugin: (nat, Value, Option<string>, Option<string>) -> Outcome)

  /** processValue of one processor, for a value, a parameter name and the caller's user id. */
  function Run(p: Processor, v: Value, paramName: Option<string>, user: Option<string>, env: Env): Outcome
  {
    match p.kind
    case DefaultKind => Returned(DefaultProcess(v))
    case HashKind => Returned(HashProcess(v, env.md5))
    case MaskKind => Returned(MaskProcess(v, paramName))
    case NormalizeKind => Returned(NormalizeProcess(v, paramName))
    case SplitKind => Returned(SplitProcess(v, paramName))
    case CustomOrderKind => CustomOrderProcess(v, paramName, user)
    case CustomCollectionKind => CustomCollectionProcess(v, paramName, user)
    case PluginKind(id) => env.plugin(id, v, paramName, user)
  }

  /** A processor registerProcessor accepts: not null, and with a name that is not blank. */
  predicate Registrable(p: Option<Processor>)
  {
    p.Some? && p.value.name.Some? && !IsBlank(p.value.name.value)
  }

  /** The registry after registerProcessor(p): p under its name, replacing any earlier one; unchanged for a processor it refuses. */
  function Registered(m: map<string, Processor>, p: Option<Processor>): map<string, Processor>
  {
    if Registrable(p) then m[p.value.name.value := p.value] else m
  }

  /** The registry after registering each of ps in turn. */
  function RegisterAll(m: map<string, Processor>, ps: seq<Option<Processor>>): map<string, Processor>
  {
    if |ps| == 0 then m else Registered(RegisterAll(m, ps[..|ps| - 1]), ps[|ps| - 1])
  }

  /** registerBuiltinProcessors' order. */
  const Builtins: seq<Option<Processor>> :=
    [Some(DefaultProcessor), Some(HashProcessor), Some(MaskProcessor), Some(NormalizeProcessor), Some(SplitProcessor)]

  /** The application's processors; none when the optional list was not injected. */
  function Customs(custom: Option<seq<Option<Processor>>>): seq<Option<Processor>>
  {
    if custom.Some? then custom.value else []
  }

  /** Does the k-th of ps register under name n? */
  predicate RegistersAs(ps: seq<Option<Processor>>, k: int, n: string)
    requires 0 <= k < |ps|
  {
    Registrable(ps[k]) && ps[k].value.name == Some(n)
  }

  class ParamValueProcessorManager {
    var processors: map<string, Processor>

    constructor()
      ensures processors == map[]
    {
      processors := map[];
    }

    /** registerProcessor */
    method RegisterProcessor(p: Option<Processor>)
      modifies this
      ensures processors == Registered(old(processors), p)
    {
      if p.None? {
        return;
      }
      var name := p.value.name;
      if name.None? || IsBlank(name.value) {
        return;
      }
      processors := processors[name.value := p.value];
    }

    /** init: the built-in processors, then the application's in their order. */
    method Init(customProcessors: Option<seq<Option<Processor>>>)
      modifies this
      ensures processors == RegisterAll(RegisterAll(old(processors), Builtins), Customs(customProcessors))
    {
      RegisterProcessor(Some(DefaultProcessor));
      RegisterProcessor(Some(HashProcessor));
      RegisterProcessor(Some(MaskProcessor));
      RegisterProcessor(Some(NormalizeProcessor));
      RegisterProcessor(Some(SplitProcessor));
      BuiltinsInOrder(old(processors));
      ghost var base := processors;
      if customProcessors.Some? {
        var cs := customProcessors.value;
        var i := 0;
        while i < |cs|
          invariant 0 <= i <= |cs| && processors == RegisterAll(base, cs[..i])
        {
          assert cs[..i + 1][..i] == cs[..i];
          RegisterProcessor(cs[i]);
          i := i + 1;
        }
        assert cs[..i] == cs;
      }
    }

    /** getProcessor: the processor of that name, else the default one, which may itself be missing. */
    function GetProcessor(name: Option<string>): (r: Option<Processor>)
      reads this
      ensures r.Some? ==> r.value in processors.Values
      ensures name.Some? && !IsBlank(name.value) && name.value in processors ==> r == Some(processors[name.value])
      ensures !(name.Some? && !IsBlank(name.value) && name.value in processors) ==>
                (r.Some? <==> DefaultName in processors) && (r.Some? ==> r.value == processors[DefaultName])
    {
      if name.None? || IsBlank(name.value) then
        if DefaultName in processors then Some(processors[DefaultName]) else None
      else if name.value in processors then Some(processors[name.value])
      else if DefaultName in processors then Some(processors[DefaultName])
      else None
    }

    /** processValue: the processor's result; the original value when it throws, or when there is no processor to call. */
    function ProcessValue(processorName: Option<string>, v: Value, paramName: Option<string>, user: Option<string>, env: Env): (r: Value)
      reads this
      ensures GetProcessor(processorName).None? ==> r == v
      ensures GetProcessor(processorName).Some? && Run(GetProcessor(processorName).value, v, paramName, user, env).Threw? ==> r == v
      ensures GetProcessor(processorName).Some? && Run(GetProcessor(processorName).value, v, paramName, user, env).Returned? ==>
                r == Run(GetProcessor(processorName).value, v, paramName, user, env).value
    {
      match GetProcessor(processorName)
      case None => v
      case Some(p) =>
        match Run(p, v, paramName, user, env)
        case Threw => v
        case Returned(result) => result
    }
  }

  // ------------------------------------------------------------ registration

  /** A processor with a blank or missing name, or none at all, changes nothing. */
  lemma RegisterRefused(m: map<string, Processor>, p: Option<Processor>)
    requires p.None? || p.value.name.None? || IsBlank(p.value.name.value)
    ensures Registered(m, p) == m
  {
  }

  /** A registered processor is found under its name, and every other name keeps its processor. */
  lemma RegisterReplaces(m: map<string, Processor>, p: Processor, n: string)
    requires p.name == Some(n) && !IsBlank(n)
    ensures n in Registered(m, Some(p)) && Registered(m, Some(p))[n] == p
    ensures forall k :: k in m && k != n ==> k in Registered(m, Some(p)) && Registered(m, Some(p))[k] == m[k]
  {
    assert Registrable(Some(p));
    assert Registered(m, Some(p)) == m[n := p];
  }

  /** The last of ps to register under n is the one the registry holds. */
  lemma {:induction false} LastWins(m: map<string, Processor>, ps: seq<Option<Processor>>, j: int, n: string)
    requires 0 <= j < |ps| && RegistersAs(ps, j, n)
    requires forall k :: j < k < |ps| ==> !RegistersAs(ps, k, n)
    ensures n in RegisterAll(m, ps) && RegisterAll(m, ps)[n] == ps[j].value
  {
    var front := ps[..|ps| - 1];
    if j < |ps| - 1 {
      forall k | j < k < |front| ensures !RegistersAs(front, k, n) {
        assert front[k] == ps[k] && !RegistersAs(ps, k, n);
      }
      assert front[j] == ps[j];
      LastWins(m, front, j, n);
      assert !RegistersAs(ps, |ps| - 1, n);
    }
  }

  /** A name that none of ps registers under keeps what it had. */
  lemma {:induction false} Untouched(m: map<string, Processor>, ps: seq<Option<Processor>>, n: string)
    requires forall k :: 0 <= k < |ps| ==> !RegistersAs(ps, k, n)
    ensures (n in RegisterAll(m, ps)) == (n in m)
    ensures n in m ==> RegisterAll(m, ps)[n] == m[n]
  {
    if |ps| > 0 {
      var front := ps[..|ps| - 1];
      forall k | 0 <= k < |front| ensures !RegistersAs(front, k, n) {
        assert front[k] == ps[k] && !RegistersAs(ps, k, n);
      }
      Untouched(m, front, n);
      assert !RegistersAs(ps, |ps| - 1, n);
    }
  }

  /** Registering one more processor after a list. */
  lemma RegisterAllSnoc(m: map<string, Processor>, ps: seq<Option<Processor>>, p: Option<Processor>)
    ensures RegisterAll(m, ps + [p]) == Registered(RegisterAll(m, ps), p)
  {
    assert (ps + [p])[..|ps|] == ps;
  }

  /** The five registerProcessor calls of registerBuiltinProcessors. */
  lemma BuiltinsInOrder(m: map<string, Processor>)
    ensures RegisterAll(m, Builtins) ==
      Registered(Registered(Registered(Registered(Registered(m, Some(DefaultProcessor)), Some(HashProcessor)),
        Some(MaskProcessor)), Some(NormalizeProcessor)), Some(SplitProcessor))
  {
    var b1 := [Some(DefaultProcessor)];
    var b2 := b1 + [Some(HashProcessor)];
    var b3 := b2 + [Some(MaskProcessor)];
    var b4 := b3 + [Some(NormalizeProcessor)];
    RegisterAllSnoc(m, [], Some(DefaultProcessor));
    assert [] + [Some(DefaultProcessor)] == b1;
    RegisterAllSnoc(m, b1, Some(HashProcessor));
    RegisterAllSnoc(m, b2, Some(MaskProcessor));
    RegisterAllSnoc(m, b3, Some(NormalizeProcessor));
    RegisterAllSnoc(m, b4, Some(SplitProcessor));
    assert b4 + [Some(SplitProcessor)] == Builtins;
  }

  /** An empty registry holds, after the built-ins, exactly the five of them under their names. */
  lemma BuiltinRegistry()
    ensures RegisterAll(map[], Builtins) ==
      map[DefaultName := DefaultProcessor, HashName := HashProcessor, MaskName := MaskProcessor,
          NormalizeName := NormalizeProcessor, SplitName := SplitProcessor]
  {
    BuiltinsInOrder(map[]);
    BuiltinNamesNotBlank();
  }

  lemma BuiltinNamesNotBlank()
    ensures !IsBlank(DefaultName) && !IsBlank(HashName) && !IsBlank(MaskName) && !IsBlank(NormalizeName) && !IsBlank(SplitName)
  {
    NotBlank(DefaultName);
    NotBlank(HashName);
    NotBlank(MaskName);
    NotBlank(NormalizeName);
    NotBlank(SplitName);
  }

  /** A name that starts with a printable char is not blank. */
  lemma NotBlank(s: string)
    requires |s| > 0 && s[0] > ' '
    ensures !IsBlank(s)
  {
    BlankIffAllTrimmed(s);
  }

  /** After init from an empty registry, an application processor registered last under a name wins, built-in name or not. */
  lemma CustomOverrides(cs: seq<Option<Processor>>, j: int, n: string)
    requires 0 <= j < |cs| && RegistersAs(cs, j, n)
    requires forall k :: j < k < |cs| ==> !RegistersAs(cs, k, n)
    ensures var r := RegisterAll(RegisterAll(map[], Builtins), cs); n in r && r[n] == cs[j].value
  {
    LastWins(RegisterAll(map[], Builtins), cs, j, n);
  }

  /** After init from an empty registry, the default processor stays unless an application processor is named "default". */
  lemma DefaultKept(cs: seq<Option<Processor>>)
    requires forall k :: 0 <= k < |cs| ==> !RegistersAs(cs, k, DefaultName)
    ensures var r := RegisterAll(RegisterAll(map[], Builtins), cs); DefaultName in r && r[DefaultName] == DefaultProcessor
  {
    var b := RegisterAll(map[], Builtins);
    assert DefaultName in b && b[DefaultName] == DefaultProcessor by {
      BuiltinRegistry();
    }
    Untouched(b, cs, DefaultName);
  }

  // ------------------------------------------------------------ lookup and processing

  /** With "default" registered as the pass-through, a blank or unknown processor name leaves the value unchanged. */
  lemma UnknownNamePassesThrough(mgr: ParamValueProcessorManager, name: Option<string>, v: Value, paramName: Option<string>, user: Option<string>, env: Env)
    requires DefaultName in mgr.processors && mgr.processors[DefaultName] == DefaultProcessor
    requires name.None? || IsBlank(name.value) || name.value !in mgr.processors
    ensures mgr.GetProcessor(name) == Some(DefaultProcessor)
    ensures mgr.ProcessValue(name, v, paramName, user, env) == v
  {
  }

  /** custom_order throws on a null parameter name, and the manager then gives back the original value. */
  lemma ThrowGivesOriginal(mgr: ParamValueProcessorManager, v: Value, user: Option<string>, env: Env)
    requires CustomOrderName in mgr.processors && mgr.processors[CustomOrderName] == CustomOrderProcessor
    requires !v.Null?
    ensures mgr.ProcessValue(Some(CustomOrderName), v, None, user, env) == v
  {
    NotBlank(CustomOrderName);
  }

  /** A registered processor that returns is the one whose result is used. */
  lemma NamedProcessorUsed(mgr: ParamValueProcessorManager, n: string, v: Value, paramName: Option<string>, user: Option<string>, env: Env)
    requires n in mgr.processors && !IsBlank(n)
    requires Run(mgr.processors[n], v, paramName, user, env).Returned?
    ensures mgr.ProcessValue(Some(n), v, paramName, user, env) == Run(mgr.processors[n], v, paramName, user, env).value
  {
  }
}
