/**
 * `PdfFiller.fill` (src/PdfFiller.ts): look up the bindings of the instance,
 * substitute the fields into the template text, assemble the asset list
 * (three defaults, the class includes, the generated table script), build
 * the table data, merge the render options, and hand everything to the
 * render session. The file system is a map from path to text.
 */
module PdfFiller {
  import opened JsValue
  import opened PdfGenerator
  import opened Bindings
  import Placeholder

  /** The text a field is replaced with: the property value converted to a string. */
  function FieldValue(inst: Instance, f: FieldBinding): string {
    ToJsString(Property(inst, f.propertyName))
  }

  /** Every declared field once, in declaration order, each replacing all matches of its pattern. */
  function Substituted(t: string, fields: seq<FieldBinding>, inst: Instance): string
    decreases |fields|
  {
    if fields == [] then t
    else Substituted(Placeholder.ReplaceAll(t, fields[0].options.fieldName, FieldValue(inst, fields[0])), fields[1..], inst)
  }

  /** Substituting one more field substitutes it into the result of the earlier ones. */
  lemma {:induction false} SubstitutedSnoc(t: string, fields: seq<FieldBinding>, f: FieldBinding, inst: Instance)
    ensures Substituted(t, fields + [f], inst)
      == Placeholder.ReplaceAll(Substituted(t, fields, inst), f.options.fieldName, FieldValue(inst, f))
    decreases |fields|
  {
    if fields == [] {
      assert fields + [f] == [f];
    } else {
      assert (fields + [f])[1..] == fields[1..] + [f];
      SubstitutedSnoc(Placeholder.ReplaceAll(t, fields[0].options.fieldName, FieldValue(inst, fields[0])), fields[1..], f, inst);
    }
  }

  /** A template in which no declared field name occurs comes out unchanged. */
  lemma {:induction false} NoDeclaredNameNoChange(t: string, fields: seq<FieldBinding>, inst: Instance)
    requires forall i, j :: 0 <= i < |fields| && 0 <= j < |t| ==> !Placeholder.OccursAt(t, fields[i].options.fieldName, j)
    ensures Substituted(t, fields, inst) == t
    decreases |fields|
  {
    if fields != [] {
      Placeholder.AbsentNameNoChange(t, fields[0].options.fieldName, FieldValue(inst, fields[0]));
      NoDeclaredNameNoChange(t, fields[1..], inst);
    }
  }

  /**
   * A template whose only `%` signs are those of one placeholder gets the
   * text of the field bound to that placeholder in its place.
   */
  lemma LoneFieldSubstituted(pre: string, post: string, f: FieldBinding, inst: Instance)
    requires forall k :: 0 <= k < |pre| ==> pre[k] != '%'
    requires forall k :: 0 <= k < |post| ==> post[k] != '%'
    ensures Substituted(pre + "%%" + f.options.fieldName + "%%" + post, [f], inst) == pre + FieldValue(inst, f) + post
  {
    Placeholder.LoneTokenReplaced(pre, f.options.fieldName, post, FieldValue(inst, f));
  }

  /** A class with one field `number` = 2 and template `<p>%%number%%</p>` yields `<p>2</p>`. */
  lemma NumberTemplateExample(c: Ctor, p: Proto)
    ensures Substituted("<p>%%number%%</p>", [Binding("number", c, FieldOptions("number"))],
                        Instance(p, map["number" := Num(2)])) == "<p>2</p>"
  {
    var f := Binding("number", c, FieldOptions("number"));
    var inst := Instance(p, map["number" := Num(2)]);
    assert FieldValue(inst, f) == "2" by {
      assert NatToString(2) == [Digit(2)];
    }
    LoneFieldSubstituted("<p>", "</p>", f, inst);
    assert "<p>" + "%%" + "number" + "%%" + "</p>" == "<p>%%number%%</p>";
    assert "<p>" + "2" + "</p>" == "<p>2</p>";
  }

  /** The package's own file `rel`, below `root` (the directory above the compiled sources). */
  function PackagePath(root: string, rel: string): string {
    root + "/" + rel
  }

  /** bootstrap.css, jquery and bootstrap.js, in that order, injected by path. */
  function DefaultAssets(root: string): seq<Asset> {
    [
      Asset(Some(PackagePath(root, "template/css/bootstrap.min.css")), None, None),
      Asset(Some(PackagePath(root, "template/js/jquery-3.5.1.slim.min.js")), None, None),
      Asset(Some(PackagePath(root, "template/js/bootstrap.min.js")), None, None)
    ]
  }

  function ScriptPath(root: string): string {
    PackagePath(root, "template/js/table-generator.js")
  }

  /**
   * The table data object under construction: its properties in the order
   * they were defined, with values. This is the order `Object.keys` lists
   * them in as long as no key is an array index.
   */
  type Entries = seq<(string, Value)>

  datatype DataResult = Defined(entries: Entries) | Redefined(name: string)

  /** Index of the entry with key `name`, if any. */
  function EntryIndex(e: Entries, name: string): (r: Option<nat>)
    ensures r.Some? ==> r.value < |e| && e[r.value].0 == name
    ensures r.None? ==> forall k :: 0 <= k < |e| ==> e[k].0 != name
  {
    if e == [] then None
    else if e[|e| - 1].0 == name then Some(|e| - 1)
    else EntryIndex(e[..|e| - 1], name)
  }

  /**
   * `Object.defineProperty(obj, name, { value, enumerable: true })`: a new
   * key is added at the end. An existing key was defined non-writable and
   * non-configurable, so defining it again with a different value throws a
   * TypeError, and with the same value changes nothing.
   */
  function Define(e: Entries, name: string, value: Value): DataResult {
    match EntryIndex(e, name)
    case None => Defined(e + [(name, value)])
    case Some(k) => if e[k].1 == value then Defined(e) else Redefined(name)
  }

  function TableEntry(inst: Instance, b: TableBinding): (string, Value) {
    (b.options.tableName, Property(inst, b.propertyName))
  }

  /** The entries of the bindings, one per binding, in declaration order. */
  function BindingEntries(bs: seq<TableBinding>, inst: Instance): Entries {
    seq(|bs|, i requires 0 <= i < |bs| => TableEntry(inst, bs[i]))
  }

  /** The table data object after defining one property per binding, in declaration order. */
  function TableData(bs: seq<TableBinding>, inst: Instance): DataResult
    decreases |bs|
  {
    if bs == [] then Defined([])
    else match TableData(bs[..|bs| - 1], inst)
      case Redefined(n) => Redefined(n)
      case Defined(e) => Define(e, bs[|bs| - 1].options.tableName, Property(inst, bs[|bs| - 1].propertyName))
  }

  predicate DistinctKeys(e: Entries) {
    forall i, j :: 0 <= i < j < |e| ==> e[i].0 != e[j].0
  }

  /** One definition keeps the keys distinct, keeps every entry and adds at most the new one. */
  lemma DefineShape(e: Entries, name: string, value: Value)
    requires DistinctKeys(e)
    ensures Define(e, name, value).Defined? ==>
      var r := Define(e, name, value).entries;
      && DistinctKeys(r)
      && |r| <= |e| + 1
      && (name, value) in r
      && (forall x :: x in e ==> x in r)
      && (forall x :: x in r ==> x in e || x == (name, value))
  {
    match EntryIndex(e, name)
    case None =>
    case Some(k) =>
  }

  lemma BindingEntriesSnoc(bs: seq<TableBinding>, inst: Instance)
    requires bs != []
    ensures BindingEntries(bs, inst) == BindingEntries(bs[..|bs| - 1], inst) + [TableEntry(inst, bs[|bs| - 1])]
  {
    var init := bs[..|bs| - 1];
    var l, r := BindingEntries(bs, inst), BindingEntries(init, inst) + [TableEntry(inst, bs[|bs| - 1])];
    assert |l| == |r|;
    forall i | 0 <= i < |l| ensures l[i] == r[i] {
      if i < |init| {
        assert init[i] == bs[i];
      }
    }
  }

  /**
   * A successful table data object has distinct keys, one entry for every
   * binding, and no entry that does not come from a binding.
   */
  lemma {:induction false} TableDataShape(bs: seq<TableBinding>, inst: Instance)
    ensures TableData(bs, inst).Defined? ==>
      var e := TableData(bs, inst).entries;
      && DistinctKeys(e)
      && |e| <= |bs|
      && (forall i :: 0 <= i < |bs| ==> TableEntry(inst, bs[i]) in e)
      && (forall x :: x in e ==> x in BindingEntries(bs, inst))
    decreases |bs|
  {
    if bs != [] {
      var init := bs[..|bs| - 1];
      var b := bs[|bs| - 1];
      TableDataShape(init, inst);
      if TableData(init, inst).Defined? && TableData(bs, inst).Defined? {
        var e0 := TableData(init, inst).entries;
        var e := TableData(bs, inst).entries;
        assert e == Define(e0, b.options.tableName, Property(inst, b.propertyName)).entries;
        DefineShape(e0, b.options.tableName, Property(inst, b.propertyName));
        BindingEntriesSnoc(bs, inst);
        forall i | 0 <= i < |bs| ensures TableEntry(inst, bs[i]) in e {
          if i < |bs| - 1 {
            assert bs[i] == init[i];
          }
        }
      }
    }
  }

  /**
   * When the table names are pairwise distinct, the object gets exactly one
   * property per binding, defined in declaration order.
   */
  lemma {:induction false} DistinctNamesDefineAll(bs: seq<TableBinding>, inst: Instance)
    requires forall i, j :: 0 <= i < j < |bs| ==> bs[i].options.tableName != bs[j].options.tableName
    ensures TableData(bs, inst) == Defined(BindingEntries(bs, inst))
    decreases |bs|
  {
    if bs != [] {
      var init := bs[..|bs| - 1];
      DistinctNamesDefineAll(init, inst);
      var e0 := BindingEntries(init, inst);
      var name := bs[|bs| - 1].options.tableName;
      forall k | 0 <= k < |e0| ensures e0[k].0 != name {
        assert init[k] == bs[k];
      }
      assert BindingEntries(bs, inst) == e0 + [TableEntry(inst, bs[|bs| - 1])];
    }
  }

  /** Two table bindings with one name and different values make `fill` throw instead of overwriting. */
  lemma DuplicateNameThrows(b1: TableBinding, b2: TableBinding, inst: Instance)
    requires b1.options.tableName == b2.options.tableName
    requires Property(inst, b1.propertyName) != Property(inst, b2.propertyName)
    ensures TableData([b1, b2], inst) == Redefined(b1.options.tableName)
  {
    var n := b1.options.tableName;
    assert [b1][..0] == [];
    assert TableData([b1], inst) == Define([], n, Property(inst, b1.propertyName));
    assert TableData([b1], inst) == Defined([(n, Property(inst, b1.propertyName))]);
    assert [b1, b2][..1] == [b1];
    assert EntryIndex([(n, Property(inst, b1.propertyName))], n) == Some(0);
  }

  /** Once a definition throws, the later bindings are never reached. */
  lemma {:induction false} RedefinedStays(bs: seq<TableBinding>, more: seq<TableBinding>, inst: Instance)
    requires TableData(bs, inst).Redefined?
    ensures TableData(bs + more, inst) == TableData(bs, inst)
    decreases |more|
  {
    var all := bs + more;
    if more == [] {
      assert all == bs;
    } else {
      var prefix := all[..|all| - 1];
      assert prefix == bs + more[..|more| - 1];
      RedefinedStays(bs, more[..|more| - 1], inst);
      assert TableData(prefix, inst).Redefined?;
      assert TableData(all, inst) == TableData(prefix, inst);
    }
  }

  /** `s.indexOf(pat, from)`: the first occurrence at or after `from`. */
  function IndexOf(s: string, pat: string, from: nat): (r: Option<nat>)
    requires from <= |s|
    ensures r.Some? ==> from <= r.value && Placeholder.OccursAt(s, pat, r.value)
    ensures r.Some? ==> forall k :: from <= k < r.value ==> !Placeholder.OccursAt(s, pat, k)
    ensures r.None? ==> forall k :: from <= k <= |s| ==> !Placeholder.OccursAt(s, pat, k)
    decreases |s| - from
  {
    if Placeholder.OccursAt(s, pat, from) then Some(from)
    else if from == |s| then None
    else IndexOf(s, pat, from + 1)
  }

  /** `s.replace(pat, rep)` with a string pattern: only the first occurrence is replaced. */
  function ReplaceFirst(s: string, pat: string, rep: string): string {
    match IndexOf(s, pat, 0)
    case Some(i) => s[..i] + rep + s[i + |pat|..]
    case None => s
  }

  /**
   * Splitting the text at the first occurrence of the pattern: that
   * occurrence becomes `rep`, and everything after it, later occurrences
   * included, is kept.
   */
  lemma ReplaceFirstOnlyFirst(pre: string, pat: string, post: string, rep: string)
    requires forall k :: 0 <= k < |pre| ==> !Placeholder.OccursAt(pre + pat + post, pat, k)
    ensures ReplaceFirst(pre + pat + post, pat, rep) == pre + rep + post
  {
    var s := pre + pat + post;
    assert Placeholder.OccursAt(s, pat, |pre|) by {
      assert s[|pre|..|pre| + |pat|] == pat;
    }
    var i := IndexOf(s, pat, 0).value;
    assert i == |pre|;
    assert s[..i] == pre && s[i + |pat|..] == post;
  }

  /** Text without the pattern is left as it is. */
  lemma ReplaceFirstAbsent(s: string, pat: string, rep: string)
    requires forall k :: 0 <= k <= |s| ==> !Placeholder.OccursAt(s, pat, k)
    ensures ReplaceFirst(s, pat, rep) == s
  {
  }

  /** The table generator script with the data assigned at the first `tablesData`. */
  function TableScript(scriptText: string, e: Entries, serialize: Entries -> string): string {
    ReplaceFirst(scriptText, "tablesData", "tablesData = " + serialize(e))
  }

  /**
   * The render options `fill` passes on: an empty object, then the class
   * options, then the call options, each assigned over the previous.
   */
  function MergedOptions(classOptions: Option<PdfOptions>, callOptions: Option<PdfOptions>): (r: PdfOptions)
    ensures r.Keys == (if classOptions.Some? then classOptions.value.Keys else {}) + (if callOptions.Some? then callOptions.value.Keys else {})
    ensures callOptions.Some? ==> forall k :: k in callOptions.value ==> r[k] == callOptions.value[k]
    ensures classOptions.Some? ==> forall k :: k in classOptions.value && (callOptions.None? || k !in callOptions.value) ==> r[k] == classOptions.value[k]
  {
    var withClass := if classOptions.Some? then Assign(map[], classOptions.value) else map[];
    if callOptions.Some? then Assign(withClass, callOptions.value) else withClass
  }

  /** What `fill` hands to the render session, or why it stops before rendering. */
  datatype Prepared =
    | Unbound
    | FileMissing(path: string)
    | TableRedefined(name: string)
    | Ready(template: string, includes: seq<Asset>, pdfOptions: PdfOptions)

  /** The specification of the preparation steps of `fill`. */
  function PrepareSpec(fields: Option<seq<FieldBinding>>, tables: Option<seq<TableBinding>>,
                       cls: Option<TemplateBinding>, inst: Instance, files: map<string, string>,
                       root: string, serialize: Entries -> string, callOptions: Option<PdfOptions>): Prepared
  {
    if cls.None? || fields.None? then Unbound
    else
      var opts := cls.value.options;
      if opts.templatePath !in files then FileMissing(opts.templatePath)
      else
        var template := Substituted(files[opts.templatePath], fields.value, inst);
        var base := DefaultAssets(root) + opts.includes.GetOr([]);
        var merged := MergedOptions(opts.pdfOptions, callOptions);
        if tables.None? then Ready(template, base, merged)
        else match TableData(tables.value, inst)
          case Redefined(n) => TableRedefined(n)
          case Defined(e) =>
            if ScriptPath(root) !in files then FileMissing(ScriptPath(root))
            else Ready(template, base + [Asset(None, Some(TableScript(files[ScriptPath(root)], e, serialize)), Some("js"))], merged)
  }

  /** Without a template binding or without field bindings nothing is prepared. */
  lemma MissingBindingIsUnbound(fields: Option<seq<FieldBinding>>, tables: Option<seq<TableBinding>>,
                                cls: Option<TemplateBinding>, inst: Instance, files: map<string, string>,
                                root: string, serialize: Entries -> string, callOptions: Option<PdfOptions>)
    ensures PrepareSpec(fields, tables, cls, inst, files, root, serialize, callOptions) == Unbound
      <==> cls.None? || fields.None?
  {
  }

  /**
   * A prepared render has the substituted template, the assets in the order
   * defaults, class includes, then one generated `js` script exactly when
   * table bindings exist, and the merged options.
   */
  lemma PreparedShape(fields: Option<seq<FieldBinding>>, tables: Option<seq<TableBinding>>,
                      cls: Option<TemplateBinding>, inst: Instance, files: map<string, string>,
                      root: string, serialize: Entries -> string, callOptions: Option<PdfOptions>)
    ensures var p := PrepareSpec(fields, tables, cls, inst, files, root, serialize, callOptions);
      p.Ready? ==>
        && cls.Some? && fields.Some? && cls.value.options.templatePath in files
        && p.template == Substituted(files[cls.value.options.templatePath], fields.value, inst)
        && p.includes[..3] == DefaultAssets(root)
        && |p.includes| == 3 + |cls.value.options.includes.GetOr([])| + (if tables.Some? then 1 else 0)
        && p.includes[3..3 + |cls.value.options.includes.GetOr([])|] == cls.value.options.includes.GetOr([])
        && (tables.Some? ==> p.includes[|p.includes| - 1].kind == Some("js") && p.includes[|p.includes| - 1].content.Some?)
        && p.pdfOptions == MergedOptions(cls.value.options.pdfOptions, callOptions)
  {
  }

  /** The preparation reaches the render exactly when the files exist and the table data can be built. */
  lemma PreparedWhenReadable(fields: Option<seq<FieldBinding>>, tables: Option<seq<TableBinding>>,
                             cls: Option<TemplateBinding>, inst: Instance, files: map<string, string>,
                             root: string, serialize: Entries -> string, callOptions: Option<PdfOptions>)
    requires cls.Some? && fields.Some? && cls.value.options.templatePath in files
    ensures PrepareSpec(fields, tables, cls, inst, files, root, serialize, callOptions).Ready?
      <==> tables.None? || (TableData(tables.value, inst).Defined? && ScriptPath(root) in files)
  {
  }

  /** The `forEach` over the field bindings: the template text is reassigned once per field. */
  method SubstituteFields(text: string, fs: seq<FieldBinding>, inst: Instance) returns (template: string)
    ensures template == Substituted(text, fs, inst)
  {
    template := text;
    for i := 0 to |fs|
      invariant template == Substituted(text, fs[..i], inst)
    {
      template := Placeholder.ReplaceAll(template, fs[i].options.fieldName, FieldValue(inst, fs[i]));
      SubstitutedSnoc(text, fs[..i], fs[i], inst);
      assert fs[..i + 1] == fs[..i] + [fs[i]];
    }
    assert fs[..|fs|] == fs;
  }

  /** The three default assets, then each class include, pushed in order. */
  method AppendIncludes(start: seq<Asset>, root: string, classIncludes: Option<seq<Asset>>) returns (includes: seq<Asset>)
    ensures includes == start + DefaultAssets(root) + classIncludes.GetOr([])
  {
    includes := start;
    includes := includes + [Asset(Some(PackagePath(root, "template/css/bootstrap.min.css")), None, None)];
    includes := includes + [Asset(Some(PackagePath(root, "template/js/jquery-3.5.1.slim.min.js")), None, None)];
    includes := includes + [Asset(Some(PackagePath(root, "template/js/bootstrap.min.js")), None, None)];
    if classIncludes.Some? {
      var cs := classIncludes.value;
      for i := 0 to |cs|
        invariant includes == start + DefaultAssets(root) + cs[..i]
      {
        includes := includes + [cs[i]];
        assert cs[..i + 1] == cs[..i] + [cs[i]];
      }
      assert cs[..|cs|] == cs;
    }
  }

  /** The `forEach` over the table bindings, defining one property each; a redefinition throws. */
  method DefineTableData(bs: seq<TableBinding>, inst: Instance) returns (r: DataResult)
    ensures r == TableData(bs, inst)
  {
    var tableData: Entries := [];
    for i := 0 to |bs|
      invariant TableData(bs[..i], inst) == Defined(tableData)
    {
      assert bs[..i + 1][..i] == bs[..i];
      var d := Define(tableData, bs[i].options.tableName, Property(inst, bs[i].propertyName));
      if d.Redefined? {
        RedefinedStays(bs[..i + 1], bs[i + 1..], inst);
        assert bs[..i + 1] + bs[i + 1..] == bs;
        return d;
      }
      tableData := d.entries;
    }
    assert bs[..|bs|] == bs;
    r := Defined(tableData);
  }

  /**
   * The preparation steps of `fill`, step by step as the source runs them:
   * substitute each field, push the assets, define the table data, and
   * assign the options.
   */
  method Prepare(fields: Option<seq<FieldBinding>>, tables: Option<seq<TableBinding>>,
                 cls: Option<TemplateBinding>, inst: Instance, files: map<string, string>,
                 root: string, serialize: Entries -> string, callOptions: Option<PdfOptions>) returns (r: Prepared)
    ensures r == PrepareSpec(fields, tables, cls, inst, files, root, serialize, callOptions)
  {
    if cls.None? || fields.None? {
      return Unbound;
    }
    var opts := cls.value.options;
    if opts.templatePath !in files {
      return FileMissing(opts.templatePath);
    }
    var template := SubstituteFields(files[opts.templatePath], fields.value, inst);
    var includes := AppendIncludes([], root, opts.includes);
    ghost var base := DefaultAssets(root) + opts.includes.GetOr([]);
    assert includes == base by {
      AppendAssoc([], DefaultAssets(root), opts.includes.GetOr([]));
    }
    if tables.Some? {
      var data := DefineTableData(tables.value, inst);
      if data.Redefined? {
        return TableRedefined(data.name);
      }
      if ScriptPath(root) !in files {
        return FileMissing(ScriptPath(root));
      }
      var script := files[ScriptPath(root)];
      script := ReplaceFirst(script, "tablesData", "tablesData = " + serialize(data.entries));
      assert script == TableScript(files[ScriptPath(root)], data.entries, serialize);
      includes := includes + [Asset(None, Some(script), Some("js"))];
    }

    var pdfOptions: PdfOptions := map[];
    if opts.pdfOptions.Some? {
      pdfOptions := Assign(pdfOptions, opts.pdfOptions.value);
    }
    if callOptions.Some? {
      pdfOptions := Assign(pdfOptions, callOptions.value);
    }
    assert pdfOptions == MergedOptions(opts.pdfOptions, callOptions);
    r := Ready(template, includes, pdfOptions);
  }

  /** What `fill` resolves or rejects with. */
  datatype FillOutcome =
    | NotFilled
    | PrepareFailed(reason: Prepared)
    | RenderFailed(result: RenderResult)
    | WriteFailed(path: string)
    | Filled(pdf: Bytes)

  /**
   * How `fill` ends once the preparation `p` is known, given the session's
   * trace and browser before (`trace0`, `browser0`) and after the call.
   * Without the bindings it resolves to nothing; a failed preparation
   * touches nothing; otherwise the session renders once, as `getPdf`
   * specifies, and a failed render passes its reason on. A rendered PDF is
   * returned, and written to `outputPath` when one is given; a write that
   * rejects (`writeFails`) rejects `fill` and returns no PDF.
   */
  ghost predicate Delivered(p: Prepared, r: FillOutcome, written: Option<(string, Bytes)>,
                            env: Environment, trace0: seq<EngineCall>, browser0: Option<nat>,
                            trace: seq<EngineCall>, browser: Option<nat>,
                            outputPath: Option<string>, launch: LaunchOutcome, printed: Bytes, ext: string -> string,
                            failAt: Option<nat>, writeFails: bool)
  {
    && (p.Unbound? ==> r == NotFilled && written == None)
    && (!p.Ready? && !p.Unbound? ==> r == PrepareFailed(p) && written == None)
    && (!p.Ready? ==> trace == trace0 && browser == browser0)
    && (p.Ready? ==>
          var g := GetPdfSpec(env, browser0, p.template, Some(p.includes), Some(p.pdfOptions), launch, printed, ext, failAt);
          && trace == trace0 + g.calls
          && browser == g.browser
          && (!g.result.Rendered? ==> r == RenderFailed(g.result) && written == None)
          && (g.result.Rendered? && outputPath.Some? && writeFails ==> r == WriteFailed(outputPath.value) && written == None)
          && (g.result.Rendered? && !(outputPath.Some? && writeFails) ==>
                && r == Filled(printed)
                && written == (if outputPath.Some? then Some((outputPath.value, printed)) else None)))
  }

  /**
   * With a browser at hand (or one that launches), no page call rejecting and
   * the file written, `fill` returns the printed PDF after exactly the launch
   * (if needed) and every call of one render.
   */
  lemma DeliveredWithoutRejection(p: Prepared, r: FillOutcome, written: Option<(string, Bytes)>,
                                  env: Environment, trace0: seq<EngineCall>, browser0: Option<nat>,
                                  trace: seq<EngineCall>, browser: Option<nat>,
                                  outputPath: Option<string>, launch: LaunchOutcome, printed: Bytes, ext: string -> string)
    requires p.Ready? && (browser0.Some? || launch.Launched?)
    requires Delivered(p, r, written, env, trace0, browser0, trace, browser, outputPath, launch, printed, ext, None, false)
    ensures r == Filled(printed)
    ensures written == (if outputPath.Some? then Some((outputPath.value, printed)) else None)
    ensures trace == trace0
                     + (if browser0.None? then StartCalls(env, launch) else [])
                     + RenderCalls(p.template, Some(p.includes), Some(p.pdfOptions), ext)
    ensures browser.Some?
  {
    var c := RenderCalls(p.template, Some(p.includes), Some(p.pdfOptions), ext);
    assert Issued(c, None) == c;
  }

  /** The part of `fill` after the preparation: render through the session and write the output file. */
  method Deliver(session: Generator, p: Prepared, outputPath: Option<string>, launch: LaunchOutcome,
                 printed: Bytes, ext: string -> string, failAt: Option<nat>, writeFails: bool)
      returns (r: FillOutcome, written: Option<(string, Bytes)>)
    modifies session`browser, session`trace
    ensures Delivered(p, r, written, session.env, old(session.trace), old(session.browser),
                      session.trace, session.browser, outputPath, launch, printed, ext, failAt, writeFails)
    ensures session.tableGeneratorScriptCache == old(session.tableGeneratorScriptCache)
    ensures session.scriptReads == old(session.scriptReads)
  {
    written := None;
    if p.Unbound? {
      return NotFilled, None;
    }
    if !p.Ready? {
      return PrepareFailed(p), None;
    }
    var result := session.GetPdf(p.template, Some(p.includes), Some(p.pdfOptions), launch, printed, ext, failAt);
    if !result.Rendered? {
      return RenderFailed(result), None;
    }
    if outputPath.Some? {
      if writeFails {
        return WriteFailed(outputPath.value), None;
      }
      written := Some((outputPath.value, result.pdf));
    }
    r := Filled(result.pdf);
  }

  /**
   * `fill(outputPath, pdfOptions)`: look up the three registries for the
   * instance, prepare, then render and write.
   */
  method Fill(fieldRegistry: BindingRegistry<FieldOptions>, tableRegistry: BindingRegistry<TableOptions>,
              templateRegistry: TemplateRegistry, session: Generator, inst: Instance,
              files: map<string, string>, root: string, serialize: Entries -> string, ext: string -> string,
              outputPath: Option<string>, pdfOptions: Option<PdfOptions>, launch: LaunchOutcome, printed: Bytes,
              failAt: Option<nat>, writeFails: bool)
      returns (r: FillOutcome, written: Option<(string, Bytes)>)
    requires fieldRegistry.Valid() && tableRegistry.Valid()
    modifies session`browser, session`trace
    ensures Delivered(PrepareSpec(fieldRegistry.GetDecorators(inst), tableRegistry.GetDecorators(inst),
                                  templateRegistry.GetDecorators(inst), inst, files, root, serialize, pdfOptions),
                      r, written, session.env, old(session.trace), old(session.browser),
                      session.trace, session.browser, outputPath, launch, printed, ext, failAt, writeFails)
    ensures session.tableGeneratorScriptCache == old(session.tableGeneratorScriptCache)
    ensures session.scriptReads == old(session.scriptReads)
  {
    var fieldDecorators := fieldRegistry.GetDecorators(inst);
    var tableDecorators := tableRegistry.GetDecorators(inst);
    var classDecorators := templateRegistry.GetDecorators(inst);
    var p := Prepare(fieldDecorators, tableDecorators, classDecorators, inst, files, root, serialize, pdfOptions);
    r, written := Deliver(session, p, outputPath, launch, printed, ext, failAt, writeFails);
  }
}
