/**
 * The binding registries of src/PdfFiller.ts. The `@PdfField` and
 * `@PdfTable` decorators append a binding to the list kept for the class
 * prototype they decorate; `@PdfTemplate` records the template options for
 * the class constructor. Lookups go through an instance's immediate
 * prototype only.
 */
module Bindings {
  import opened JsValue
  import opened PdfGenerator

  /** A class constructor function; `name` is its `.name`. */
  datatype Ctor = Ctor(id: nat, name: string)

  /** A class prototype object, with its `constructor` link. */
  datatype Proto = Proto(id: nat, ctor: Ctor)

  /** A template instance: its immediate prototype and its own properties. */
  datatype Instance = Instance(proto: Proto, props: map<string, Value>)

  /** `Reflect.get(instance, name)` on the instance's own properties. */
  function Property(inst: Instance, name: string): Value {
    if name in inst.props then inst.props[name] else Undefined
  }

  datatype FieldOptions = FieldOptions(fieldName: string)

  datatype TableOptions = TableOptions(tableName: string)

  /** One decorated property: its name, the declaring constructor and the decorator options. */
  datatype Binding<O> = Binding(propertyName: string, ctor: Ctor, options: O)

  type FieldBinding = Binding<FieldOptions>

  type TableBinding = Binding<TableOptions>

  type DecoratorsMap<O> = map<Proto, seq<Binding<O>>>

  /** `decoratorsMap.get(target)`. */
  function Lookup<O>(m: DecoratorsMap<O>, target: Proto): Option<seq<Binding<O>>> {
    if target in m then Some(m[target]) else None
  }

  function ListOf<O>(m: DecoratorsMap<O>, target: Proto): seq<Binding<O>> {
    Lookup(m, target).GetOr([])
  }

  /** The map after one registration: the list for `target`, created if absent, gains one binding at its end. */
  function Registered<O>(m: DecoratorsMap<O>, target: Proto, property: string, options: O): DecoratorsMap<O> {
    m[target := ListOf(m, target) + [Binding(property, target.ctor, options)]]
  }

  /** The map after registering several properties of one prototype, in declaration order. */
  function RegisteredAll<O>(m: DecoratorsMap<O>, target: Proto, decls: seq<(string, O)>): DecoratorsMap<O>
    decreases |decls|
  {
    if decls == [] then m
    else RegisteredAll(Registered(m, target, decls[0].0, decls[0].1), target, decls[1..])
  }

  /** The bindings the declarations of one prototype produce, in order. */
  function BindingsFor<O>(target: Proto, decls: seq<(string, O)>): seq<Binding<O>> {
    seq(|decls|, i requires 0 <= i < |decls| => Binding(decls[i].0, target.ctor, decls[i].1))
  }

  /** Every stored list is non-empty and holds bindings of its prototype's constructor. */
  ghost predicate WellFormed<O>(m: DecoratorsMap<O>) {
    forall p :: p in m ==> |m[p]| > 0 && forall b :: b in m[p] ==> b.ctor == p.ctor
  }

  /**
   * Registering appends: the target's list gains the new binding at its end,
   * created on first use, and every other prototype's list is unchanged.
   */
  lemma RegisterAppends<O>(m: DecoratorsMap<O>, target: Proto, property: string, options: O)
    ensures Lookup(Registered(m, target, property, options), target)
      == Some(ListOf(m, target) + [Binding(property, target.ctor, options)])
    ensures forall q :: q != target ==> Lookup(Registered(m, target, property, options), q) == Lookup(m, q)
    ensures WellFormed(m) ==> WellFormed(Registered(m, target, property, options))
  {
  }

  /**
   * Registering a sequence of declarations on one prototype leaves exactly
   * the earlier list followed by the new bindings in declaration order, and
   * no other prototype's list changes.
   */
  lemma {:induction false} RegisterInOrder<O>(m: DecoratorsMap<O>, target: Proto, decls: seq<(string, O)>)
    ensures ListOf(RegisteredAll(m, target, decls), target) == ListOf(m, target) + BindingsFor(target, decls)
    ensures forall q :: q != target ==> Lookup(RegisteredAll(m, target, decls), q) == Lookup(m, q)
    ensures decls != [] ==> Lookup(RegisteredAll(m, target, decls), target).Some?
    decreases |decls|
  {
    if decls != [] {
      var m1 := Registered(m, target, decls[0].0, decls[0].1);
      RegisterAppends(m, target, decls[0].0, decls[0].1);
      RegisterInOrder(m1, target, decls[1..]);
      assert BindingsFor(target, decls) == [Binding(decls[0].0, target.ctor, decls[0].1)] + BindingsFor(target, decls[1..]);
      if decls[1..] == [] {
        assert RegisteredAll(m1, target, decls[1..]) == m1;
      }
    }
  }

  /** Decorating the same property twice keeps both bindings: the second does not replace the first. */
  lemma ReRegisterKeepsBoth<O>(m: DecoratorsMap<O>, target: Proto, property: string, options: O)
    ensures var b := Binding(property, target.ctor, options);
      ListOf(Registered(Registered(m, target, property, options), target, property, options), target)
        == ListOf(m, target) + [b, b]
  {
  }

  /**
   * `PdfFieldClass` and `PdfTableClass`: one map from prototype to the
   * ordered list of its decorated properties.
   */
  class BindingRegistry<O> {
    var decoratorsMap: DecoratorsMap<O>

    ghost predicate Valid()
      reads this
    {
      WellFormed(decoratorsMap)
    }

    constructor()
      ensures Valid() && decoratorsMap == map[]
    {
      decoratorsMap := map[];
    }

    /** `registerDecorator`: append the binding to the list of `target`, creating the list if needed. */
    method RegisterDecorator(target: Proto, property: string, options: O)
      requires Valid()
      modifies this
      ensures Valid()
      ensures decoratorsMap == Registered(old(decoratorsMap), target, property, options)
    {
      var keys: seq<Binding<O>>;
      if target in decoratorsMap {
        keys := decoratorsMap[target];
      } else {
        keys := [];
        decoratorsMap := decoratorsMap[target := keys];
      }
      decoratorsMap := decoratorsMap[target := keys + [Binding(property, target.ctor, options)]];
      RegisterAppends(old(decoratorsMap), target, property, options);
    }

    /**
     * `getDecorators`: the list registered for the instance's immediate
     * prototype, if any; a list found is never empty and holds bindings of
     * that prototype's constructor.
     */
    function GetDecorators(target: Instance): (r: Option<seq<Binding<O>>>)
      reads this
      requires Valid()
      ensures r.Some? <==> target.proto in decoratorsMap
      ensures r.Some? ==> |r.value| > 0 && forall b :: b in r.value ==> b.ctor == target.proto.ctor
    {
      Lookup(decoratorsMap, target.proto)
    }
  }

  /** What `@PdfTemplate` records for a class. */
  datatype TemplateOptions = TemplateOptions(
    templatePath: string,
    pdfOptions: Option<PdfOptions>,
    includes: Option<seq<Asset>>)

  datatype TemplateBinding = TemplateBinding(className: string, options: TemplateOptions)

  /**
   * The `className` recorded is `target.constructor.name`; `target` is the
   * class constructor itself, whose own constructor is `Function`.
   */
  const ConstructorOfClassName: string := "Function"

  /** `PdfTemplateClass`: template options keyed by class constructor; a later registration overwrites. */
  class TemplateRegistry {
    var decoratorMap: map<Ctor, TemplateBinding>

    constructor()
      ensures decoratorMap == map[]
    {
      decoratorMap := map[];
    }

    /**
     * `registerDecorator`: every instance of the class now finds these
     * options, and what any other class finds is unchanged.
     */
    method RegisterDecorator(target: Ctor, options: TemplateOptions)
      modifies this
      ensures decoratorMap == old(decoratorMap)[target := TemplateBinding(ConstructorOfClassName, options)]
      ensures forall inst: Instance :: inst.proto.ctor == target ==>
        GetDecorators(inst) == Some(TemplateBinding(ConstructorOfClassName, options))
      ensures forall inst: Instance :: inst.proto.ctor != target ==> GetDecorators(inst) == old(GetDecorators(inst))
    {
      decoratorMap := decoratorMap[target := TemplateBinding(ConstructorOfClassName, options)];
    }

    /** `getDecorators`: the binding of the constructor of the instance's immediate prototype. */
    function GetDecorators(target: Instance): Option<TemplateBinding>
      reads this
    {
      if target.proto.ctor in decoratorMap then Some(decoratorMap[target.proto.ctor]) else None
    }
  }

  /**
   * Of two template registrations for one class the later one is found and
   * the earlier one leaves no trace; every other class keeps its entry, or
   * its absence.
   */
  lemma LaterTemplateWins(m: map<Ctor, TemplateBinding>, c: Ctor, first: TemplateOptions, second: TemplateOptions, d: Ctor)
    ensures var twice := m[c := TemplateBinding(ConstructorOfClassName, first)][c := TemplateBinding(ConstructorOfClassName, second)];
      && twice == m[c := TemplateBinding(ConstructorOfClassName, second)]
      && twice[c].options == second
      && (d != c ==> (d in twice <==> d in m) && (d in m ==> twice[d] == m[d]))
  {
  }

  /**
   * A class decorated twice with `@PdfTemplate`, through the registry: its
   * instances find the later options, and every other class finds what it
   * found before.
   */
  method RegisterTemplateTwice(registry: TemplateRegistry, c: Ctor, first: TemplateOptions, second: TemplateOptions)
    modifies registry
    ensures registry.decoratorMap == old(registry.decoratorMap)[c := TemplateBinding(ConstructorOfClassName, second)]
    ensures forall inst: Instance :: inst.proto.ctor == c ==>
      registry.GetDecorators(inst) == Some(TemplateBinding(ConstructorOfClassName, second))
    ensures forall inst: Instance :: inst.proto.ctor != c ==> registry.GetDecorators(inst) == old(registry.GetDecorators(inst))
  {
    registry.RegisterDecorator(c, first);
    registry.RegisterDecorator(c, second);
  }
}
