/** The JavaScript names that wasm_bindgen gives, and when the `#[wasm_export]` rewrite keeps them. */
module WasmNames {
  import opened Wrappers
  import opened WasmExport

  // ---------------------------------------------------------------- what wasm_bindgen exports

  /** A build: which `cfg` predicates hold, and which attribute paths are wasm_bindgen's. */
  datatype Build = Build(holds: Meta -> bool, isBindgen: string -> bool) {
    /** The build has the wasm feature, and wasm_bindgen goes by its name. */
    predicate Lawful() {
      holds(WASM_FEATURE) && isBindgen("wasm_bindgen") && isBindgen(BINDGEN_PATH) &&
      !isBindgen("wasm_only") && !isBindgen("doc") && !isBindgen("deprecated") && !isBindgen("allow")
    }
  }

  /** The attributes left once `cfg_attr`, nested or not, has been expanded. */
  function Active(w: Build, a: Meta): seq<Meta>
    decreases a
  {
    if a.path == "cfg_attr" && a.List? && a.args != [] then
      if w.holds(a.args[0]) then ActiveAll(w, a.args[1..]) else []
    else [a]
  }

  function ActiveAll(w: Build, attrs: seq<Meta>): seq<Meta>
    decreases attrs
  {
    if attrs == [] then [] else Active(w, attrs[0]) + ActiveAll(w, attrs[1..])
  }

  /** All arguments wasm_bindgen finds in a list of expanded attributes. */
  function BindgenArgs(w: Build, attrs: seq<Meta>): seq<Meta> {
    if attrs == [] then []
    else (if w.isBindgen(attrs[0].path) && attrs[0].List? then attrs[0].args else []) + BindgenArgs(w, attrs[1..])
  }

  function ArgsOf(w: Build, attrs: seq<Meta>): seq<Meta> {
    BindgenArgs(w, ActiveAll(w, attrs))
  }

  /** What JavaScript sees: a constructor, a function, the getter or setter of a property, or nothing. */
  datatype JsName = Constructor | Named(name: string) | Property(setter: bool, name: string) | Rejected

  function Keep(args: seq<Meta>, path: string): seq<Meta> {
    if args == [] then []
    else if args[0].path == path then [args[0]] + Keep(args[1..], path)
    else Keep(args[1..], path)
  }

  lemma {:induction false} KeepEmptyIff(args: seq<Meta>, path: string)
    ensures Keep(args, path) == [] <==> !HasPath(args, path)
  {
    if args != [] {
      KeepEmptyIff(args[1..], path);
      if HasPath(args[1..], path) {
        var i :| 0 <= i < |args[1..]| && args[1..][i].path == path;
        assert args[i + 1].path == path;
      }
      if HasPath(args, path) && args[0].path != path {
        var i :| 0 <= i < |args| && args[i].path == path;
        assert args[1..][i - 1].path == path;
      }
    }
  }

  datatype Given = Nothing | Given(name: string) | Malformed

  /** The one name that arguments of a kind give. */
  function GivenName(metas: seq<Meta>): Given {
    if metas == [] then Nothing
    else if |metas| == 1 && metas[0].NameValue? then Given(metas[0].value.text)
    else Malformed
  }

  datatype Accessor = NoAccessor | Bare(setter: bool) | Explicit(setter: bool, name: string) | BadAccessor

  /** `getter`, `setter`, or either with the property it stands for; a setter goes before a getter. */
  function AccessorOf(args: seq<Meta>): Accessor {
    var setters, getters := Keep(args, "setter"), Keep(args, "getter");
    var setter := setters != [];
    var given := if setter then setters else getters;
    if given == [] then NoAccessor
    else if |given| > 1 || given[0].List? then BadAccessor
    else if given[0].Word? then Bare(setter)
    else Explicit(setter, given[0].value.text)
  }

  /** The property that an unnamed accessor stands for; a setter drops `set_` from its Rust name. */
  function Inferred(setter: bool, ident: string): JsName {
    if !setter then Property(false, ident)
    else if "set_" <= ident then Property(true, ident[4..])
    else Rejected
  }

  /** wasm_bindgen's name: the Rust name, the one `js_name`, the property of an accessor, or the constructor. */
  function Exported(args: seq<Meta>, ident: string): JsName {
    var given := GivenName(Keep(args, "js_name"));
    if Keep(args, "constructor") != [] then (if given.Nothing? then Constructor else Rejected)
    else if given.Malformed? then Rejected
    else
      match AccessorOf(args)
      case NoAccessor => Named(if given.Given? then given.name else ident)
      case Bare(setter) => if given.Given? then Property(setter, given.name) else Inferred(setter, ident)
      case Explicit(setter, name) => Property(setter, name)
      case BadAccessor => Rejected
  }

  function MethodName(w: Build, m: Method): JsName {
    Exported(ArgsOf(w, m.attrs), m.ident)
  }

  /** The JavaScript names of a block's public methods, in order. */
  function JsNames(w: Build, items: seq<Item>): seq<JsName> {
    if items == [] then []
    else (if items[0].Fn? && items[0].fn.isPublic then [MethodName(w, items[0].fn)] else []) + JsNames(w, items[1..])
  }

  /** The block as it would be without its markers. */
  function Unmarked(i: Item): Item {
    if i.Fn? then Fn(i.fn.(attrs := Erased(i.fn.attrs))) else i
  }

  function UnmarkedAll(items: seq<Item>): (r: seq<Item>)
    ensures |r| == |items| && forall i :: 0 <= i < |items| ==> r[i] == Unmarked(items[i])
  {
    seq(|items|, i requires 0 <= i < |items| => Unmarked(items[i]))
  }

  // ---------------------------------------------------------------- names are kept

  lemma {:induction false} ActiveAllConcat(w: Build, xs: seq<Meta>, ys: seq<Meta>)
    ensures ActiveAll(w, xs + ys) == ActiveAll(w, xs) + ActiveAll(w, ys)
    decreases xs
  {
    if xs == [] {
      assert xs + ys == ys;
    } else {
      assert (xs + ys)[1..] == xs[1..] + ys;
      ActiveAllConcat(w, xs[1..], ys);
    }
  }

  lemma {:induction false} BindgenArgsConcat(w: Build, xs: seq<Meta>, ys: seq<Meta>)
    ensures BindgenArgs(w, xs + ys) == BindgenArgs(w, xs) + BindgenArgs(w, ys)
  {
    if xs == [] {
      assert xs + ys == ys;
    } else {
      assert (xs + ys)[1..] == xs[1..] + ys;
      BindgenArgsConcat(w, xs[1..], ys);
    }
  }

  lemma {:induction false} ArgsConcat(w: Build, xs: seq<Meta>, ys: seq<Meta>)
    ensures ArgsOf(w, xs + ys) == ArgsOf(w, xs) + ArgsOf(w, ys)
  {
    ActiveAllConcat(w, xs, ys);
    BindgenArgsConcat(w, ActiveAll(w, xs), ActiveAll(w, ys));
  }

  lemma {:induction false} KeepConcat(xs: seq<Meta>, ys: seq<Meta>, path: string)
    ensures Keep(xs + ys, path) == Keep(xs, path) + Keep(ys, path)
    decreases |xs|
  {
    if xs == [] {
      assert xs + ys == ys;
    } else {
      assert (xs + ys)[0] == xs[0] && (xs + ys)[1..] == xs[1..] + ys;
      KeepConcat(xs[1..], ys, path);
    }
  }

  /** An attribute that is neither wasm_bindgen's nor a `cfg_attr` carries no arguments. */
  lemma {:induction false} PlainAttr(w: Build, a: Meta)
    requires a.path != "cfg_attr" && !w.isBindgen(a.path)
    ensures ArgsOf(w, [a]) == []
  {
    assert [a][1..] == [];
    assert ActiveAll(w, [a]) == [a] + [] == [a];
    assert BindgenArgs(w, [a]) == [] + [];
  }

  lemma {:induction false} DecorationCarriesNothing(w: Build, attrs: seq<Meta>)
    requires w.Lawful()
    requires Marked(attrs) ==> GoodMarker(attrs[Marker(attrs)])
    ensures ArgsOf(w, Redecorated(attrs)) == ArgsOf(w, Erased(attrs))
  {
    if Marked(attrs) {
      var note := Note(attrs[Marker(attrs)]);
      var d := Decoration(note);
      PlainAttr(w, d[0]);
      PlainAttr(w, d[1]);
      PlainAttr(w, d[2]);
      ArgsConcat(w, [d[0]], [d[1]]);
      ArgsConcat(w, [d[0]] + [d[1]], [d[2]]);
      assert d == [d[0]] + [d[1]] + [d[2]];
      ArgsConcat(w, Erased(attrs), d);
    }
  }

  lemma {:induction false} JsNameAttrActive(w: Build, name: string)
    requires w.Lawful()
    ensures ArgsOf(w, [JsNameAttr(name)]) == [JsNameArg(name)]
  {
    var a := JsNameAttr(name);
    var inner := List("wasm_bindgen", [JsNameArg(name)], true);
    assert a.args[1..] == [inner];
    assert [inner][1..] == [] && [a][1..] == [];
    assert ActiveAll(w, [inner]) == [inner] + [] == [inner];
    assert Active(w, a) == ActiveAll(w, a.args[1..]) == [inner];
    assert ActiveAll(w, [a]) == [inner] + [] == [inner];
    assert BindgenArgs(w, [inner]) == [JsNameArg(name)] + [] == [JsNameArg(name)];
  }

  lemma {:induction false} NamesIffKept(args: seq<Meta>)
    ensures Names(args) <==> Keep(args, "js_name") != [] || Keep(args, "constructor") != []
  {
    KeepEmptyIff(args, "js_name");
    KeepEmptyIff(args, "constructor");
    if Names(args) {
      var i :| 0 <= i < |args| && IsNaming(args[i]);
    }
    assert HasPath(args, "js_name") || HasPath(args, "constructor") ==> Names(args) by {
      assert forall i :: 0 <= i < |args| && (args[i].path == "js_name" || args[i].path == "constructor") ==> IsNaming(args[i]);
    }
  }

  lemma {:induction false} AddedKeeps(args: seq<Meta>, ident: string)
    ensures var more := args + [JsNameArg(ident)];
            && Keep(more, "js_name") == Keep(args, "js_name") + [JsNameArg(ident)]
            && Keep(more, "constructor") == Keep(args, "constructor")
            && AccessorOf(more) == AccessorOf(args)
  {
    var extra := [JsNameArg(ident)];
    assert extra[1..] == [];
    assert Keep(extra, "js_name") == extra + [] == extra;
    KeepConcat(args, extra, "js_name");
    KeepConcat(args, extra, "constructor");
    KeepConcat(args, extra, "setter");
    KeepConcat(args, extra, "getter");
  }

  /** What an added `js_name` does: harmless without one before, except to a setter that is not told its property. */
  lemma {:induction false} AddedName(args: seq<Meta>, ident: string, renamed: string)
    ensures Exported(args + [JsNameArg(ident)], renamed) == Exported(args, ident)
            <==> if Names(args) then Exported(args, ident) == Rejected else AccessorOf(args) != Bare(true)
  {
    AddedKeeps(args, ident);
    NamesIffKept(args);
    assert "set_" <= ident ==> |ident[4..]| != |ident|;
  }

  /** The new Rust name does not show: something else names the method, or nothing does. */
  predicate HidesIdent(args: seq<Meta>, ident: string) {
    Names(args) || AccessorOf(args).Explicit? || Exported(args, ident) == Rejected
  }

  /** What the new Rust name does when nothing is added. */
  lemma {:induction false} RenamedName(args: seq<Meta>, ident: string)
    ensures Exported(args, PREFIX + ident) == Exported(args, ident) <==> HidesIdent(args, ident)
  {
    NamesIffKept(args);
    assert (PREFIX + ident)[0] == '_' && "set_"[0] == 's';
    assert |PREFIX + ident| != |ident|;
  }

  /** The name of a marked public method survives the rewrite, told from its attributes and the build. */
  predicate NameSurvives(w: Build, m: Method) {
    var attrs := Erased(m.attrs);
    var args := ArgsOf(w, attrs);
    if SeesName(attrs) then HidesIdent(args, m.ident)
    else if Names(args) then Exported(args, m.ident) == Rejected
    else AccessorOf(args) != Bare(true)
  }

  lemma {:induction false} DecorationUnseen(note: string, i: nat)
    requires i < 3
    ensures WasmBindgenArgs(Decoration(note)[i]).None?
  {
  }

  lemma {:induction false} SeesNameConcat(xs: seq<Meta>, ys: seq<Meta>)
    ensures SeesName(xs + ys) <==> SeesName(xs) || SeesName(ys)
  {
    var both := xs + ys;
    if SeesName(xs) {
      var i :| 0 <= i < |xs| && WasmBindgenArgs(xs[i]).Some? && Names(WasmBindgenArgs(xs[i]).value);
      assert both[i] == xs[i];
    }
    if SeesName(ys) {
      var i :| 0 <= i < |ys| && WasmBindgenArgs(ys[i]).Some? && Names(WasmBindgenArgs(ys[i]).value);
      assert both[|xs| + i] == ys[i];
    }
  }

  lemma {:induction false} SeesNameDecorated(attrs: seq<Meta>)
    requires Marked(attrs) && GoodMarker(attrs[Marker(attrs)])
    ensures SeesName(Redecorated(attrs)) == SeesName(Erased(attrs))
  {
    var d := Decoration(Note(attrs[Marker(attrs)]));
    forall i | 0 <= i < |d| ensures WasmBindgenArgs(d[i]).None? {
      DecorationUnseen(Note(attrs[Marker(attrs)]), i);
    }
    SeesNameConcat(Erased(attrs), d);
  }

  /** One method keeps its JavaScript name exactly when it is unmarked or its name survives. */
  lemma {:induction false} MethodKeepsName(w: Build, m: Method)
    requires w.Lawful() && MethodError(m).None? && m.isPublic
    ensures MethodName(w, Rewritten(m)) == MethodName(w, m.(attrs := Erased(m.attrs)))
            <==> !Marked(m.attrs) || NameSurvives(w, m)
  {
    if Marked(m.attrs) {
      var args := ArgsOf(w, Erased(m.attrs));
      DecorationCarriesNothing(w, m.attrs);
      SeesNameDecorated(m.attrs);
      if SeesName(Erased(m.attrs)) {
        assert Rewritten(m).attrs == Redecorated(m.attrs);
        RenamedName(args, m.ident);
      } else {
        ArgsConcat(w, Redecorated(m.attrs), [JsNameAttr(m.ident)]);
        JsNameAttrActive(w, m.ident);
        AddedName(args, m.ident, PREFIX + m.ident);
      }
    } else {
      assert Rewritten(m).attrs == m.attrs;
    }
  }

  predicate ItemKeepsName(w: Build, i: Item) {
    i.Fn? && i.fn.isPublic && Marked(i.fn.attrs) ==> NameSurvives(w, i.fn)
  }

  lemma {:induction false} JsNamesTail(w: Build, xs: seq<Item>, ys: seq<Item>)
    requires xs != [] && ys != [] && JsNames(w, xs) == JsNames(w, ys)
    requires xs[0].Fn? == ys[0].Fn? && (xs[0].Fn? ==> xs[0].fn.isPublic == ys[0].fn.isPublic)
    ensures JsNames(w, xs[1..]) == JsNames(w, ys[1..])
    ensures xs[0].Fn? && xs[0].fn.isPublic ==> MethodName(w, xs[0].fn) == MethodName(w, ys[0].fn)
  {
    if xs[0].Fn? && xs[0].fn.isPublic {
      assert JsNames(w, xs)[1..] == JsNames(w, xs[1..]);
      assert JsNames(w, ys)[1..] == JsNames(w, ys[1..]);
      assert JsNames(w, xs)[0] == JsNames(w, ys)[0];
    } else {
      assert JsNames(w, xs) == JsNames(w, xs[1..]);
      assert JsNames(w, ys) == JsNames(w, ys[1..]);
    }
  }

  lemma {:induction false} JsNamesEqualIff(w: Build, xs: seq<Item>, ys: seq<Item>)
    requires |xs| == |ys|
    requires forall i :: 0 <= i < |xs| ==> xs[i].Fn? == ys[i].Fn? && (xs[i].Fn? ==> xs[i].fn.isPublic == ys[i].fn.isPublic)
    ensures |JsNames(w, xs)| == |JsNames(w, ys)|
    ensures JsNames(w, xs) == JsNames(w, ys) <==>
            forall i :: 0 <= i < |xs| && xs[i].Fn? && xs[i].fn.isPublic ==> MethodName(w, xs[i].fn) == MethodName(w, ys[i].fn)
    decreases |xs|
  {
    if xs != [] {
      JsNamesEqualIff(w, xs[1..], ys[1..]);
      var same := forall i :: 0 <= i < |xs| && xs[i].Fn? && xs[i].fn.isPublic ==> MethodName(w, xs[i].fn) == MethodName(w, ys[i].fn);
      assert same ==> JsNames(w, xs) == JsNames(w, ys);
      if JsNames(w, xs) == JsNames(w, ys) {
        JsNamesTail(w, xs, ys);
        forall i | 0 <= i < |xs| && xs[i].Fn? && xs[i].fn.isPublic ensures MethodName(w, xs[i].fn) == MethodName(w, ys[i].fn) {
          if i > 0 {
            assert xs[1..][i - 1] == xs[i] && ys[1..][i - 1] == ys[i];
          }
        }
      }
    }
  }

  /** The rewrite keeps every JavaScript name of an accepted block exactly when that of each marked method survives. */
  lemma {:induction false} ExpansionKeepsNames(w: Build, args: seq<Meta>, b: ImplBlock)
    requires w.Lawful() && Accepted(Some(args), b)
    ensures JsNames(w, Expansion(args, b).items) == JsNames(w, UnmarkedAll(b.items))
            <==> forall i :: 0 <= i < |b.items| ==> ItemKeepsName(w, b.items[i])
  {
    var xs, ys := Expansion(args, b).items, UnmarkedAll(b.items);
    forall i | 0 <= i < |b.items| && b.items[i].Fn? && b.items[i].fn.isPublic
      ensures MethodName(w, xs[i].fn) == MethodName(w, ys[i].fn) <==> ItemKeepsName(w, b.items[i])
    {
      assert ItemAccepted(b.items[i]);
      MethodKeepsName(w, b.items[i].fn);
    }
    JsNamesEqualIff(w, xs, ys);
  }

  // ---------------------------------------------------------------- ordinary spellings

  predicate Quiet(w: Build, a: Meta) {
    a.path != "cfg_attr" && !w.isBindgen(a.path)
  }

  predicate PlainBindgen(a: Meta) {
    a.path == "wasm_bindgen" && (a.List? ==> a.parses)
  }

  /** Unrelated, or wasm_bindgen written plainly or alone under `cfg_attr(feature = "wasm", ..)`. */
  predicate Ordinary(w: Build, a: Meta) {
    || Quiet(w, a) || PlainBindgen(a)
    || (&& a.path == "cfg_attr" && a.List? && a.parses && a.args != [] && a.args[0].path != "wasm_bindgen"
        && (|| (forall i :: 1 <= i < |a.args| ==> Quiet(w, a.args[i]))
            || (a.args[0] == WASM_FEATURE && |a.args| == 2 && PlainBindgen(a.args[1]))))
  }

  lemma {:induction false} QuietAll(w: Build, attrs: seq<Meta>)
    requires forall i :: 0 <= i < |attrs| ==> Quiet(w, attrs[i])
    ensures ArgsOf(w, attrs) == []
    decreases attrs
  {
    if attrs != [] {
      PlainAttr(w, attrs[0]);
      QuietAll(w, attrs[1..]);
      ArgsConcat(w, [attrs[0]], attrs[1..]);
      assert attrs == [attrs[0]] + attrs[1..];
    }
  }

  lemma {:induction false} PlainBindgenArgs(w: Build, a: Meta)
    requires w.Lawful() && PlainBindgen(a)
    ensures WasmBindgenArgs(a) == Some(ArgsOf(w, [a]))
  {
    assert [a][1..] == [];
    assert ActiveAll(w, [a]) == [a] + [] == [a];
    var args := if a.List? then a.args else [];
    assert BindgenArgs(w, [a]) == args + [] == args;
  }

  lemma {:induction false} ActiveUnderCfg(w: Build, a: Meta)
    requires a.path == "cfg_attr" && a.List? && a.args != []
    ensures ArgsOf(w, [a]) == if w.holds(a.args[0]) then ArgsOf(w, a.args[1..]) else []
  {
    assert [a][1..] == [];
    assert ActiveAll(w, [a]) == Active(w, a) + [] == Active(w, a);
  }

  /** On an ordinary attribute the rewrite sees exactly the arguments that are active. */
  lemma {:induction false} OrdinarySeen(w: Build, a: Meta)
    requires w.Lawful() && Ordinary(w, a)
    ensures ArgsOf(w, [a]) == match WasmBindgenArgs(a) case None => [] case Some(args) => args
  {
    if PlainBindgen(a) {
      PlainBindgenArgs(w, a);
    } else if Quiet(w, a) {
      PlainAttr(w, a);
    } else {
      ActiveUnderCfg(w, a);
      if forall i :: 1 <= i < |a.args| ==> Quiet(w, a.args[i]) {
        QuietAll(w, a.args[1..]);
      } else {
        assert a.args[1..] == [a.args[1]];
        PlainBindgenArgs(w, a.args[1]);
      }
    }
  }

  lemma {:induction false} NamesConcat(xs: seq<Meta>, ys: seq<Meta>)
    ensures Names(xs + ys) <==> Names(xs) || Names(ys)
  {
    KeepConcat(xs, ys, "js_name");
    KeepConcat(xs, ys, "constructor");
    NamesIffKept(xs);
    NamesIffKept(ys);
    NamesIffKept(xs + ys);
  }

  lemma {:induction false} SeesNameOne(a: Meta)
    ensures SeesName([a]) <==> WasmBindgenArgs(a).Some? && Names(WasmBindgenArgs(a).value)
  {
    assert [a][0] == a;
  }

  lemma {:induction false} OrdinaryAllSeen(w: Build, attrs: seq<Meta>)
    requires w.Lawful() && forall i :: 0 <= i < |attrs| ==> Ordinary(w, attrs[i])
    ensures SeesName(attrs) <==> Names(ArgsOf(w, attrs))
    decreases attrs
  {
    if attrs != [] {
      OrdinarySeen(w, attrs[0]);
      OrdinaryAllSeen(w, attrs[1..]);
      ArgsConcat(w, [attrs[0]], attrs[1..]);
      assert attrs == [attrs[0]] + attrs[1..];
      NamesConcat(ArgsOf(w, [attrs[0]]), ArgsOf(w, attrs[1..]));
      SeesNameConcat([attrs[0]], attrs[1..]);
      SeesNameOne(attrs[0]);
    }
  }

  predicate OrdinaryItem(w: Build, i: Item) {
    i.Fn? ==> forall k :: 0 <= k < |i.fn.attrs| ==> Ordinary(w, i.fn.attrs[k])
  }

  /** A marked public setter that names neither itself nor its property. */
  predicate UntoldSetter(w: Build, i: Item) {
    i.Fn? && i.fn.isPublic && Marked(i.fn.attrs)
    && var args := ArgsOf(w, Erased(i.fn.attrs)); !Names(args) && AccessorOf(args) == Bare(true)
  }

  /** With names written plainly, under the wasm feature or not at all, only such setters lose theirs. */
  lemma {:induction false} OrdinaryNamesKept(w: Build, args: seq<Meta>, b: ImplBlock)
    requires w.Lawful() && Accepted(Some(args), b)
    requires forall i :: 0 <= i < |b.items| ==> OrdinaryItem(w, b.items[i])
    ensures JsNames(w, Expansion(args, b).items) == JsNames(w, UnmarkedAll(b.items))
            <==> forall i :: 0 <= i < |b.items| ==> !UntoldSetter(w, b.items[i])
  {
    forall i | 0 <= i < |b.items| ensures ItemKeepsName(w, b.items[i]) <==> !UntoldSetter(w, b.items[i]) {
      if b.items[i].Fn? {
        assert OrdinaryItem(w, b.items[i]);
        OrdinaryAllSeen(w, Erased(b.items[i].fn.attrs));
      }
    }
    ExpansionKeepsNames(w, args, b);
  }

  lemma {:induction false} SetterExports(property: string)
    ensures var ident, args := "set_" + property, [Word("setter")];
            && Exported(args, ident) == Property(true, property)
            && Exported(args + [JsNameArg(ident)], PREFIX + ident) == Property(true, ident)
  {
    var ident, args := "set_" + property, [Word("setter")];
    assert args[1..] == [] && Keep(args, "setter") == args;
    assert ident[4..] == property;
    AddedKeeps(args, ident);
  }

  /** A marked `#[wasm_bindgen(setter)]` becomes the setter of a property named after its whole Rust name. */
  lemma {:induction false} MarkedSetterRenamed(w: Build, property: string)
    requires w.Lawful()
    ensures var m := Method("set_" + property, true, false,
                            [Word("wasm_only"), List("wasm_bindgen", [Word("setter")], true)]);
            && MethodError(m).None?
            && MethodName(w, m.(attrs := Erased(m.attrs))) == Property(true, property)
            && MethodName(w, Rewritten(m)) == Property(true, "set_" + property)
  {
    var ident, a := "set_" + property, List("wasm_bindgen", [Word("setter")], true);
    var m := Method(ident, true, false, [Word("wasm_only"), a]);
    assert Marker(m.attrs) == 0 && ident[0] != 'r';
    assert Erased(m.attrs) == [a];
    PlainBindgenArgs(w, a);
    SeesNameOne(a);
    SeesNameDecorated(m.attrs);
    DecorationCarriesNothing(w, m.attrs);
    ArgsConcat(w, Redecorated(m.attrs), [JsNameAttr(ident)]);
    JsNameAttrActive(w, ident);
    SetterExports(property);
  }

  /** A name under a `cfg_attr` that is off in the build hides the original: JavaScript sees the prefix. */
  lemma {:induction false} InactiveNameLost(w: Build, ident: string, name: string, off: Meta)
    requires w.Lawful() && !w.holds(off) && off.path != "wasm_bindgen" && !IsRaw(ident)
    ensures var hidden := List("cfg_attr", [off, List("wasm_bindgen", [JsNameArg(name)], true)], true);
            var m := Method(ident, true, false, [Word("wasm_only"), hidden]);
            && MethodError(m).None?
            && MethodName(w, m.(attrs := Erased(m.attrs))) == Named(ident)
            && MethodName(w, Rewritten(m)) == Named(PREFIX + ident)
  {
    var inner := List("wasm_bindgen", [JsNameArg(name)], true);
    var hidden := List("cfg_attr", [off, inner], true);
    var m := Method(ident, true, false, [Word("wasm_only"), hidden]);
    assert Marker(m.attrs) == 0;
    assert Erased(m.attrs) == [hidden];
    ActiveUnderCfg(w, hidden);
    assert hidden.args[1] == inner;
    assert WasmBindgenArgs(hidden) == Some([JsNameArg(name)]) by {
      assert hidden.args[1..][0] == inner;
    }
    assert IsNaming([JsNameArg(name)][0]);
    assert Redecorated(m.attrs)[0] == hidden;
    assert SeesName(Redecorated(m.attrs));
    DecorationCarriesNothing(w, m.attrs);
    assert Rewritten(m).attrs == Redecorated(m.attrs);
  }

  // ---------------------------------------------------------------- free functions

  /** What a free function is exported as: once for each of its wasm_bindgen attributes. */
  function Exports(w: Build, active: seq<Meta>, ident: string): seq<JsName> {
    if active == [] then []
    else
      var a := active[0];
      (if w.isBindgen(a.path) then [Exported(if a.List? then a.args else [], ident)] else [])
      + Exports(w, active[1..], ident)
  }

  function FnNames(w: Build, attrs: seq<Meta>, ident: string): seq<JsName> {
    Exports(w, ActiveAll(w, attrs), ident)
  }

  lemma {:induction false} ExportsConcat(w: Build, xs: seq<Meta>, ys: seq<Meta>, ident: string)
    ensures Exports(w, xs + ys, ident) == Exports(w, xs, ident) + Exports(w, ys, ident)
    decreases |xs|
  {
    if xs == [] {
      assert xs + ys == ys;
    } else {
      assert (xs + ys)[0] == xs[0] && (xs + ys)[1..] == xs[1..] + ys;
      ExportsConcat(w, xs[1..], ys, ident);
    }
  }

  lemma {:induction false} FnNamesConcat(w: Build, xs: seq<Meta>, ys: seq<Meta>, ident: string)
    ensures FnNames(w, xs + ys, ident) == FnNames(w, xs, ident) + FnNames(w, ys, ident)
  {
    ActiveAllConcat(w, xs, ys);
    ExportsConcat(w, ActiveAll(w, xs), ActiveAll(w, ys), ident);
  }

  lemma {:induction false} DecorationExportsNothing(w: Build, note: string, ident: string)
    requires w.Lawful()
    ensures FnNames(w, Decoration(note), ident) == []
  {
    var d := Decoration(note);
    assert d[1..] == [d[1], d[2]] && d[1..][1..] == [d[2]] && d[1..][1..][1..] == [];
    assert ActiveAll(w, [d[2]]) == [d[2]];
    assert ActiveAll(w, [d[1], d[2]]) == [d[1], d[2]];
    assert ActiveAll(w, d) == d;
    assert Exports(w, [d[2]], ident) == [];
    assert Exports(w, [d[1], d[2]], ident) == [];
  }

  /** The macro's own attribute exports the function once, under its arguments. */
  lemma {:induction false} MacroExports(w: Build, args: seq<Meta>, ident: string)
    requires w.Lawful()
    ensures FnNames(w, [WasmBindgenAttr(args)], ident) == [Exported(args, ident)]
  {
    var a := WasmBindgenAttr(args);
    var inner := if args == [] then Word(BINDGEN_PATH) else List(BINDGEN_PATH, args, true);
    assert a.args[1..] == [inner];
    assert [inner][1..] == [] && [a][1..] == [];
    assert ActiveAll(w, [inner]) == [inner] + [] == [inner];
    assert Active(w, a) == ActiveAll(w, a.args[1..]) == [inner];
    assert ActiveAll(w, [a]) == [inner] + [] == [inner];
    assert Exports(w, [inner], ident) == [Exported(args, ident)] + [] == [Exported(args, ident)];
  }

  /** Every wasm_bindgen attribute among these hides the Rust name. */
  predicate AllHideIdent(w: Build, active: seq<Meta>, ident: string) {
    forall i :: 0 <= i < |active| && w.isBindgen(active[i].path) ==>
                HidesIdent(if active[i].List? then active[i].args else [], ident)
  }

  lemma {:induction false} SameHead(x: JsName, xs: seq<JsName>, y: JsName, ys: seq<JsName>)
    ensures [x] + xs == [y] + ys <==> x == y && xs == ys
  {
    assert ([x] + xs)[1..] == xs && ([y] + ys)[1..] == ys;
    assert ([x] + xs)[0] == x && ([y] + ys)[0] == y;
  }

  lemma {:induction false} ExportsRenamed(w: Build, active: seq<Meta>, ident: string)
    ensures Exports(w, active, PREFIX + ident) == Exports(w, active, ident) <==> AllHideIdent(w, active, ident)
  {
    if active != [] {
      var a, rest := active[0], active[1..];
      var args := if a.List? then a.args else [];
      ExportsRenamed(w, rest, ident);
      RenamedName(args, ident);
      assert forall i :: 0 < i < |active| ==> active[i] == rest[i - 1];
      assert AllHideIdent(w, active, ident) <==>
             (w.isBindgen(a.path) ==> HidesIdent(args, ident)) && AllHideIdent(w, rest, ident) by {
        assert forall i :: 0 <= i < |rest| ==> rest[i] == active[i + 1];
      }
      if w.isBindgen(a.path) {
        SameHead(Exported(args, PREFIX + ident), Exports(w, rest, PREFIX + ident),
                 Exported(args, ident), Exports(w, rest, ident));
      } else {
        assert Exports(w, active, PREFIX + ident) == Exports(w, rest, PREFIX + ident);
        assert Exports(w, active, ident) == Exports(w, rest, ident);
      }
    }
  }

  /** The macro's own arguments keep the name exactly when they give it or name neither constructor nor bare setter. */
  lemma {:induction false} MacroKeepsName(args: seq<Meta>, f: Function)
    requires Marked(f.attrs)
    ensures Exported(FnArgs(args, f), PREFIX + f.ident) == Exported(args, f.ident)
            <==> HasPath(args, "js_name") || (!HasPath(args, "constructor") && AccessorOf(args) != Bare(true))
  {
    KeepEmptyIff(args, "js_name");
    KeepEmptyIff(args, "constructor");
    NamesIffKept(args);
    if HasPath(args, "js_name") {
      assert FnArgs(args, f) == args;
      RenamedName(args, f.ident);
    } else {
      AddedName(args, f.ident, PREFIX + f.ident);
    }
  }

  /** The function's own attributes, without the marker, once expanded. */
  function OtherActive(w: Build, f: Function): seq<Meta> {
    ActiveAll(w, Erased(f.attrs))
  }

  /** The macro's arguments keep the name of a marked function, and every wasm_bindgen attribute that was
      not seen on it hides its Rust name. */
  predicate FnNameSurvives(w: Build, args: seq<Meta>, f: Function) {
    && (HasPath(args, "js_name") || (!HasPath(args, "constructor") && AccessorOf(args) != Bare(true)))
    && AllHideIdent(w, OtherActive(w, f), f.ident)
  }

  /** An accepted function is exported as without its marker exactly when it has none or its name survives. */
  lemma {:induction false} FnKeepsName(w: Build, args: seq<Meta>, f: Function)
    requires w.Lawful() && AcceptedFn(Some(args), f)
    ensures FnNames(w, [WasmBindgenAttr(FnArgs(args, f))] + Redecorated(f.attrs), Renamed(f.ident, f.attrs)) ==
            FnNames(w, [WasmBindgenAttr(args)] + Erased(f.attrs), f.ident)
            <==> !Marked(f.attrs) || FnNameSurvives(w, args, f)
  {
    var ident := Renamed(f.ident, f.attrs);
    FnNamesConcat(w, [WasmBindgenAttr(FnArgs(args, f))], Redecorated(f.attrs), ident);
    FnNamesConcat(w, [WasmBindgenAttr(args)], Erased(f.attrs), f.ident);
    MacroExports(w, FnArgs(args, f), ident);
    MacroExports(w, args, f.ident);
    if Marked(f.attrs) {
      var note := Note(f.attrs[Marker(f.attrs)]);
      FnNamesConcat(w, Erased(f.attrs), Decoration(note), ident);
      DecorationExportsNothing(w, note, ident);
      MacroKeepsName(args, f);
      ExportsRenamed(w, OtherActive(w, f), f.ident);
      SameHead(Exported(FnArgs(args, f), ident), FnNames(w, Erased(f.attrs), ident),
               Exported(args, f.ident), FnNames(w, Erased(f.attrs), f.ident));
    } else {
      assert FnArgs(args, f) == args;
    }
  }
}
