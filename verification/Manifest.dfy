/**
 * The script manifest (scripting/gameplay/src/gameplay_manifest.cpp): reading it from
 * JSON, printing it, and exactly when reading gives back what was printed.
 */
module Manifests {
  import opened Decimals
  import opened Numbers
  import opened Json
  import opened Options
  import opened Widths
  import W = WrittenNumbers

  datatype Category = Quest | Skill | Ai | Boss | Event

  datatype Hook = SkillFormula | QuestEvent | AiDecide | BossPhase | ActivityModifier

  datatype ScriptBinding = ScriptBinding(
    name: string, path: string, category: Category, hooks: seq<Hook>, keys: seq<string>,
    tickHz: real, requiresRefs: seq<string>, enabled: bool)

  datatype ScriptManifest = ScriptManifest(version: uint32, scripts: seq<ScriptBinding>)

  function CategoryName(c: Category): string {
    match c
    case Quest => "quest"
    case Skill => "skill"
    case Ai => "ai"
    case Boss => "boss"
    case Event => "event"
  }

  function ParseCategory(text: string): Option<Category> {
    if text == "quest" then Some(Quest)
    else if text == "skill" then Some(Skill)
    else if text == "ai" then Some(Ai)
    else if text == "boss" then Some(Boss)
    else if text == "event" then Some(Event)
    else None
  }

  function HookName(h: Hook): string {
    match h
    case SkillFormula => "skill_formula"
    case QuestEvent => "quest_event"
    case AiDecide => "ai_decide"
    case BossPhase => "boss_phase"
    case ActivityModifier => "activity_modifier"
  }

  function ParseHook(text: string): Option<Hook> {
    if text == "skill_formula" then Some(SkillFormula)
    else if text == "quest_event" then Some(QuestEvent)
    else if text == "ai_decide" then Some(AiDecide)
    else if text == "boss_phase" then Some(BossPhase)
    else if text == "activity_modifier" then Some(ActivityModifier)
    else None
  }

  lemma CategoriesRoundTrip(c: Category, text: string)
    ensures ParseCategory(text) == Some(c) <==> text == CategoryName(c)
    ensures Plain(CategoryName(c))
  {
    assert |"quest"| == 5 && |"skill"| == 5 && |"ai"| == 2 && |"boss"| == 4 && |"event"| == 5;
    assert "quest"[0] == 'q' && "skill"[0] == 's' && "event"[0] == 'e';
  }

  lemma HooksRoundTrip(h: Hook, text: string)
    ensures ParseHook(text) == Some(h) <==> text == HookName(h)
    ensures Plain(HookName(h))
  {
    assert |"skill_formula"| == 13 && |"quest_event"| == 11 && |"ai_decide"| == 9;
    assert |"boss_phase"| == 10 && |"activity_modifier"| == 17;
  }

  /** Names and enumeration values determine each other. */
  lemma NamesRoundTrip(c: Category, h: Hook, text: string)
    ensures ParseCategory(text) == Some(c) <==> text == CategoryName(c)
    ensures ParseHook(text) == Some(h) <==> text == HookName(h)
    ensures Plain(CategoryName(c)) && Plain(HookName(h))
  {
    hide ParseCategory, ParseHook, CategoryName, HookName, Plain;
    CategoriesRoundTrip(c, text);
    HooksRoundTrip(h, text);
  }

  // ----- reading fields -----

  /** The value of the first field with this key. */
  function Lookup(fields: seq<Field>, key: string): Option<Value> {
    if |fields| == 0 then None
    else if fields[0].key == key then Some(fields[0].value)
    else Lookup(fields[1..], key)
  }

  method Find(fields: seq<Field>, key: string) returns (v: Option<Value>)
    ensures v == Lookup(fields, key)
  {
    for i := 0 to |fields|
      invariant Lookup(fields, key) == Lookup(fields[i..], key)
    {
      if fields[i].key == key {
        return Some(fields[i].value);
      }
      assert fields[i..][1..] == fields[i + 1..];
    }
    return None;
  }

  /** A missing field and a null are the same thing. */
  function Given(fields: seq<Field>, key: string): Option<Value> {
    if Lookup(fields, key) == Some(Null) then None else Lookup(fields, key)
  }

  function FieldString(fields: seq<Field>, key: string): Option<string> {
    match Given(fields, key)
    case Some(String(s)) => Some(s)
    case _ => None
  }

  function FieldNumber(fields: seq<Field>, key: string, default: real): Option<real> {
    match Given(fields, key)
    case None => Some(default)
    case Some(Number(n)) => Some(n)
    case _ => None
  }

  function FieldBool(fields: seq<Field>, key: string, default: bool): Option<bool> {
    match Given(fields, key)
    case None => Some(default)
    case Some(Bool(b)) => Some(b)
    case _ => None
  }

  /** The strings of a list that holds nothing else. */
  function Strings(items: seq<Value>): Option<seq<string>> {
    if |items| == 0 then Some([])
    else if !items[|items| - 1].String? then None
    else match Strings(items[..|items| - 1])
      case None => None
      case Some(ss) => Some(ss + [items[|items| - 1].str])
  }

  function FieldStrings(fields: seq<Field>, key: string, required: bool): Option<seq<string>> {
    match Given(fields, key)
    case None => if required then None else Some([])
    case Some(Array(items)) => Strings(items)
    case _ => None
  }

  method FieldStringArray(fields: seq<Field>, key: string, required: bool) returns (out: Option<seq<string>>)
    ensures out == FieldStrings(fields, key, required)
  {
    var v := Find(fields, key);
    if v == None || v == Some(Null) {
      return if required then None else Some([]);
    }
    if !v.value.Array? {
      return None;
    }
    var items := v.value.items;
    var strings: seq<string> := [];
    for i := 0 to |items|
      invariant Strings(items[..i]) == Some(strings)
    {
      assert items[..i + 1][..i] == items[..i];
      if !items[i].String? {
        NoStrings(items, i);
        return None;
      }
      strings := strings + [items[i].str];
    }
    assert items[..|items|] == items;
    return Some(strings);
  }

  lemma {:induction false} NoStrings(items: seq<Value>, i: nat)
    requires i < |items| && !items[i].String?
    ensures Strings(items) == None
  {
    if i < |items| - 1 {
      NoStrings(items[..|items| - 1], i);
    }
  }

  function Hooks(names: seq<string>): Option<seq<Hook>> {
    if |names| == 0 then Some([])
    else if ParseHook(names[|names| - 1]) == None then None
    else match Hooks(names[..|names| - 1])
      case None => None
      case Some(hs) => Some(hs + [ParseHook(names[|names| - 1]).value])
  }

  lemma {:induction false} NoHooks(names: seq<string>, i: nat)
    requires i < |names| && ParseHook(names[i]) == None
    ensures Hooks(names) == None
  {
    if i < |names| - 1 {
      NoHooks(names[..|names| - 1], i);
    }
  }

  /** The binding an object describes, if all its fields are in order. */
  function BindingOf(fields: seq<Field>): Option<ScriptBinding> {
    var category := FieldString(fields, "category");
    var hookNames := FieldStrings(fields, "hooks", true);
    var name := FieldString(fields, "name");
    var path := FieldString(fields, "path");
    var keys := FieldStrings(fields, "keys", false);
    var refs := FieldStrings(fields, "requires", false);
    var hz := FieldNumber(fields, "tick_hz", 0.0);
    var enabled := FieldBool(fields, "enabled", true);
    if category == None || ParseCategory(category.value) == None || hookNames == None || Hooks(hookNames.value) == None
       || name == None || path == None || keys == None || refs == None || hz == None || enabled == None
    then None
    else Some(ScriptBinding(name.value, path.value, ParseCategory(category.value).value, Hooks(hookNames.value).value,
                            keys.value, hz.value, refs.value, enabled.value))
  }

  method ParseOneBinding(fields: seq<Field>) returns (b: Option<ScriptBinding>)
    ensures b == BindingOf(fields)
    ensures forall x :: b == Some(x) <==> Describes(fields, x)
  {
    forall x ensures BindingOf(fields) == Some(x) <==> Describes(fields, x) {
      BindingIff(fields, x);
    }
    hide Describes, Lookup, Strings, ParseHook, FieldStrings, FieldString, FieldNumber, FieldBool;
    var category := FieldString(fields, "category");
    if category == None || ParseCategory(category.value) == None {
      return None;
    }
    var hookNames := FieldStringArray(fields, "hooks", true);
    if hookNames == None {
      return None;
    }
    var names := hookNames.value;
    var hooks: seq<Hook> := [];
    for i := 0 to |names|
      invariant Hooks(names[..i]) == Some(hooks)
    {
      assert names[..i + 1][..i] == names[..i];
      var parsed := ParseHook(names[i]);
      if parsed == None {
        NoHooks(names, i);
        return None;
      }
      hooks := hooks + [parsed.value];
    }
    assert names[..|names|] == names;
    var name := FieldString(fields, "name");
    if name == None {
      return None;
    }
    var path := FieldString(fields, "path");
    if path == None {
      return None;
    }
    var keys := FieldStringArray(fields, "keys", false);
    if keys == None {
      return None;
    }
    var refs := FieldStringArray(fields, "requires", false);
    if refs == None {
      return None;
    }
    var hz := FieldNumber(fields, "tick_hz", 0.0);
    if hz == None {
      return None;
    }
    var enabled := FieldBool(fields, "enabled", true);
    if enabled == None {
      return None;
    }
    return Some(ScriptBinding(name.value, path.value, ParseCategory(category.value).value, hooks,
                              keys.value, hz.value, refs.value, enabled.value));
  }

  function Bindings(items: seq<Value>): (r: Option<seq<ScriptBinding>>)
    ensures r.Some? ==> |r.value| == |items|
  {
    if |items| == 0 then Some([])
    else
      var last := items[|items| - 1];
      var b := if last.Object? then BindingOf(last.fields) else None;
      if b == None then None
      else match Bindings(items[..|items| - 1])
        case None => None
        case Some(bs) => Some(bs + [b.value])
  }

  /** Each script of the list is what its own object says. */
  lemma {:induction false} BindingsAt(items: seq<Value>, i: nat)
    requires i < |items|
    ensures Bindings(items).Some? ==> items[i].Object? && BindingOf(items[i].fields) == Some(Bindings(items).value[i])
  {
    hide BindingOf;
    if i < |items| - 1 {
      BindingsAt(items[..|items| - 1], i);
    }
  }

  /** The conversion of a double to 32 bits: towards zero, and the low bits of what does not fit. */
  function ToUint32(x: real): uint32 {
    (if x >= 0.0 then x.Floor else -((-x).Floor)) % 0x1_0000_0000
  }

  function ManifestOf(root: Value): Option<ScriptManifest> {
    if !root.Object? then None else
    var version := FieldNumber(root.fields, "version", 1.0);
    if version == None then None else
    match Lookup(root.fields, "scripts")
    case Some(Array(items)) =>
      (match Bindings(items)
       case None => None
       case Some(scripts) => Some(ScriptManifest(ToUint32(version.value), scripts)))
    case _ => None
  }

  /** The manifest a text stands for. */
  function ReadManifest(text: string): Option<ScriptManifest> {
    match Parsed(text)
    case None => None
    case Some(root) => ManifestOf(root)
  }

  // ----- what a value has to hold for a manifest to be read from it -----

  /** Is this the value of the first field with the key? */
  predicate Holds(fields: seq<Field>, key: string, v: Value) {
    exists i :: 0 <= i < |fields| && fields[i] == Field(key, v) && forall j :: 0 <= j < i ==> fields[j].key != key
  }

  /** No field has the key, or the first one is a null. */
  predicate Absent(fields: seq<Field>, key: string) {
    Holds(fields, key, Null) || forall i :: 0 <= i < |fields| ==> fields[i].key != key
  }

  predicate HoldsNumber(fields: seq<Field>, key: string, default: real, x: real) {
    Holds(fields, key, Number(x)) || (Absent(fields, key) && x == default)
  }

  predicate HoldsBool(fields: seq<Field>, key: string, default: bool, b: bool) {
    Holds(fields, key, Bool(b)) || (Absent(fields, key) && b == default)
  }

  predicate AreStrings(items: seq<Value>, ss: seq<string>) {
    |items| == |ss| && forall i :: 0 <= i < |ss| ==> items[i] == String(ss[i])
  }

  ghost predicate HoldsStrings(fields: seq<Field>, key: string, required: bool, ss: seq<string>) {
    || (exists items :: Holds(fields, key, Array(items)) && AreStrings(items, ss))
    || (Absent(fields, key) && !required && ss == [])
  }

  predicate IsCategory(text: string, c: Category) {
    || (text == "quest" && c == Quest) || (text == "skill" && c == Skill) || (text == "ai" && c == Ai)
    || (text == "boss" && c == Boss) || (text == "event" && c == Event)
  }

  predicate IsHook(text: string, h: Hook) {
    || (text == "skill_formula" && h == SkillFormula) || (text == "quest_event" && h == QuestEvent)
    || (text == "ai_decide" && h == AiDecide) || (text == "boss_phase" && h == BossPhase)
    || (text == "activity_modifier" && h == ActivityModifier)
  }

  predicate AreHooks(names: seq<string>, hooks: seq<Hook>) {
    |names| == |hooks| && forall i :: 0 <= i < |hooks| ==> IsHook(names[i], hooks[i])
  }

  /** Do the fields of an object describe this script? Every other field is ignored. */
  ghost predicate Describes(fields: seq<Field>, b: ScriptBinding) {
    && Holds(fields, "name", String(b.name)) && Holds(fields, "path", String(b.path))
    && (exists text :: Holds(fields, "category", String(text)) && IsCategory(text, b.category))
    && (exists names :: HoldsStrings(fields, "hooks", true, names) && AreHooks(names, b.hooks))
    && HoldsStrings(fields, "keys", false, b.keys) && HoldsStrings(fields, "requires", false, b.requiresRefs)
    && HoldsNumber(fields, "tick_hz", 0.0, b.tickHz) && HoldsBool(fields, "enabled", true, b.enabled)
  }

  ghost predicate DescribeAll(items: seq<Value>, scripts: seq<ScriptBinding>) {
    && |items| == |scripts|
    && forall i :: 0 <= i < |items| ==> items[i].Object? && Describes(items[i].fields, scripts[i])
  }

  /** The manifest that a value describes: a version, 1 if it is missing, and a list of scripts. */
  ghost predicate DescribesManifest(root: Value, m: ScriptManifest) {
    && root.Object?
    && (exists x :: HoldsNumber(root.fields, "version", 1.0, x) && m.version == ToUint32(x))
    && (exists items :: Holds(root.fields, "scripts", Array(items)) && DescribeAll(items, m.scripts))
  }

  /** A version that fits is cut off to a whole number. */
  lemma VersionIsCutOff(x: real)
    requires -1.0 < x < 4294967296.0
    ensures x >= 0.0 ==> ToUint32(x) as real <= x < ToUint32(x) as real + 1.0
    ensures x < 0.0 ==> ToUint32(x) == 0
  {
    if x >= 0.0 {
      assert x.Floor < 0x1_0000_0000;
    } else {
      assert (-x).Floor == 0;
    }
  }

  lemma {:induction false} LookupIff(fields: seq<Field>, key: string, v: Value)
    ensures Lookup(fields, key) == Some(v) <==> Holds(fields, key, v)
    ensures Lookup(fields, key) == None <==> forall i :: 0 <= i < |fields| ==> fields[i].key != key
  {
    if |fields| == 0 {
    } else {
      var rest := fields[1..];
      LookupIff(rest, key, v);
      if fields[0].key != key {
        if Holds(rest, key, v) {
          var i :| 0 <= i < |rest| && rest[i] == Field(key, v) && forall j :: 0 <= j < i ==> rest[j].key != key;
          assert fields[i + 1] == Field(key, v);
          assert forall j :: 0 < j < i + 1 ==> fields[j] == rest[j - 1];
        }
        if Holds(fields, key, v) {
          var i :| 0 <= i < |fields| && fields[i] == Field(key, v) && forall j :: 0 <= j < i ==> fields[j].key != key;
          assert rest[i - 1] == Field(key, v);
          assert forall j :: 0 <= j < i - 1 ==> rest[j] == fields[j + 1];
        }
        assert forall i :: 0 < i < |fields| ==> fields[i] == rest[i - 1];
      }
    }
  }

  lemma FieldsIff(fields: seq<Field>, key: string, s: string, x: real, default: real, b: bool, usual: bool)
    ensures FieldString(fields, key) == Some(s) <==> Holds(fields, key, String(s))
    ensures FieldNumber(fields, key, default) == Some(x) <==> HoldsNumber(fields, key, default, x)
    ensures FieldBool(fields, key, usual) == Some(b) <==> HoldsBool(fields, key, usual, b)
  {
    hide Holds, Lookup;
    LookupIff(fields, key, Null);
    LookupIff(fields, key, String(s));
    LookupIff(fields, key, Number(x));
    LookupIff(fields, key, Bool(b));
  }

  lemma {:induction false} StringsIff(items: seq<Value>, ss: seq<string>)
    ensures Strings(items) == Some(ss) <==> AreStrings(items, ss)
  {
    if |items| == 0 {
    } else {
      var n := |items| - 1;
      if |ss| == |items| {
        StringsIff(items[..n], ss[..n]);
        assert ss == ss[..n] + [ss[n]];
        assert AreStrings(items, ss) <==> AreStrings(items[..n], ss[..n]) && items[n] == String(ss[n]);
      }
      if Strings(items[..n]).Some? {
        StringsIff(items[..n], Strings(items[..n]).value);
      }
    }
  }

  lemma StringFieldsIff(fields: seq<Field>, key: string, required: bool, ss: seq<string>)
    ensures FieldStrings(fields, key, required) == Some(ss) <==> HoldsStrings(fields, key, required, ss)
  {
    hide Holds, Lookup, Strings, AreStrings;
    LookupIff(fields, key, Null);
    forall items ensures Lookup(fields, key) == Some(Array(items)) <==> Holds(fields, key, Array(items)) {
      LookupIff(fields, key, Array(items));
    }
    forall items ensures Strings(items) == Some(ss) <==> AreStrings(items, ss) {
      StringsIff(items, ss);
    }
  }

  lemma {:induction false} HooksIff(names: seq<string>, hooks: seq<Hook>)
    ensures Hooks(names) == Some(hooks) <==> AreHooks(names, hooks)
  {
    hide IsHook, ParseHook;
    forall text, h ensures ParseHook(text) == Some(h) <==> IsHook(text, h) {
      HookIff(text, h);
    }
    if |names| == 0 {
    } else {
      var n := |names| - 1;
      if |hooks| == |names| {
        HooksIff(names[..n], hooks[..n]);
        assert hooks == hooks[..n] + [hooks[n]];
        assert AreHooks(names, hooks) <==> AreHooks(names[..n], hooks[..n]) && IsHook(names[n], hooks[n]);
      }
      if Hooks(names[..n]).Some? {
        HooksIff(names[..n], Hooks(names[..n]).value);
      }
    }
  }

  lemma HookIff(text: string, h: Hook)
    ensures ParseHook(text) == Some(h) <==> IsHook(text, h)
  {
    HooksRoundTrip(h, text);
  }

  lemma CategoryIff(text: string, c: Category)
    ensures ParseCategory(text) == Some(c) <==> IsCategory(text, c)
  {
    CategoriesRoundTrip(c, text);
  }

  /** A script is read from an object exactly if its fields describe it. */
  lemma BindingIff(fields: seq<Field>, b: ScriptBinding)
    ensures BindingOf(fields) == Some(b) <==> Describes(fields, b)
  {
    hide Holds, HoldsNumber, HoldsBool, HoldsStrings, AreHooks, IsCategory;
    hide FieldString, FieldNumber, FieldBool, FieldStrings, Hooks, ParseCategory;
    FieldsIff(fields, "name", b.name, 0.0, 0.0, true, true);
    FieldsIff(fields, "path", b.path, 0.0, 0.0, true, true);
    FieldsIff(fields, "tick_hz", "", b.tickHz, 0.0, true, true);
    FieldsIff(fields, "enabled", "", 0.0, 0.0, b.enabled, true);
    StringFieldsIff(fields, "keys", false, b.keys);
    StringFieldsIff(fields, "requires", false, b.requiresRefs);
    CategoryFieldIff(fields, b.category);
    HookFieldIff(fields, b.hooks);
  }

  lemma CategoryFieldIff(fields: seq<Field>, c: Category)
    ensures var text := FieldString(fields, "category");
            text.Some? && ParseCategory(text.value) == Some(c)
            <==> exists t :: Holds(fields, "category", String(t)) && IsCategory(t, c)
  {
    hide Holds, FieldString, ParseCategory, IsCategory;
    forall t ensures FieldString(fields, "category") == Some(t) <==> Holds(fields, "category", String(t)) {
      FieldsIff(fields, "category", t, 0.0, 0.0, true, true);
    }
    forall t ensures ParseCategory(t) == Some(c) <==> IsCategory(t, c) {
      CategoryIff(t, c);
    }
  }

  lemma HookFieldIff(fields: seq<Field>, hooks: seq<Hook>)
    ensures var names := FieldStrings(fields, "hooks", true);
            names.Some? && Hooks(names.value) == Some(hooks)
            <==> exists ss :: HoldsStrings(fields, "hooks", true, ss) && AreHooks(ss, hooks)
  {
    hide HoldsStrings, FieldStrings, Hooks, AreHooks;
    forall ss ensures FieldStrings(fields, "hooks", true) == Some(ss) <==> HoldsStrings(fields, "hooks", true, ss) {
      StringFieldsIff(fields, "hooks", true, ss);
    }
    forall ss ensures Hooks(ss) == Some(hooks) <==> AreHooks(ss, hooks) {
      HooksIff(ss, hooks);
    }
  }

  lemma {:induction false} BindingsIff(items: seq<Value>, scripts: seq<ScriptBinding>)
    ensures Bindings(items) == Some(scripts) <==> DescribeAll(items, scripts)
  {
    hide BindingOf, Describes;
    if |items| == 0 {
    } else {
      var n := |items| - 1;
      if |scripts| == |items| {
        BindingsIff(items[..n], scripts[..n]);
        assert scripts == scripts[..n] + [scripts[n]];
        if items[n].Object? {
          BindingIff(items[n].fields, scripts[n]);
        }
        assert DescribeAll(items, scripts) <==>
               DescribeAll(items[..n], scripts[..n]) && items[n].Object? && Describes(items[n].fields, scripts[n]);
      }
    }
  }

  /** A manifest is read from a value exactly if the value describes it. */
  lemma ManifestIff(root: Value, m: ScriptManifest)
    ensures ManifestOf(root) == Some(m) <==> DescribesManifest(root, m)
  {
    hide Holds, HoldsNumber, FieldNumber, Lookup, Bindings, DescribeAll, ToUint32;
    if root.Object? {
      var fs := root.fields;
      forall x ensures FieldNumber(fs, "version", 1.0) == Some(x) <==> HoldsNumber(fs, "version", 1.0, x) {
        FieldsIff(fs, "version", "", x, 1.0, true, true);
      }
      forall items ensures Lookup(fs, "scripts") == Some(Array(items)) <==> Holds(fs, "scripts", Array(items)) {
        LookupIff(fs, "scripts", Array(items));
      }
      forall items ensures Bindings(items) == Some(m.scripts) <==> DescribeAll(items, m.scripts) {
        BindingsIff(items, m.scripts);
      }
    }
  }

  /** A text is read as a manifest exactly if it is the text of a value that describes the manifest. */
  lemma ReadIff(text: string, m: ScriptManifest)
    ensures ReadManifest(text) == Some(m) <==> exists root :: Parsed(text) == Some(root) && DescribesManifest(root, m)
  {
    hide Parsed, ManifestOf, DescribesManifest;
    if Parsed(text).Some? {
      ManifestIff(Parsed(text).value, m);
    }
  }

  lemma {:induction false} LookupSkips(a: seq<Field>, f: Field, b: seq<Field>, key: string)
    requires f.key != key
    ensures Lookup(a + [f] + b, key) == Lookup(a + b, key)
  {
    if |a| == 0 {
      assert a + b == b && (a + [f] + b)[1..] == b;
    } else {
      LookupSkips(a[1..], f, b, key);
      assert (a + [f] + b)[1..] == a[1..] + [f] + b && (a + b)[1..] == a[1..] + b;
    }
  }

  predicate IsScriptKey(key: string) {
    || key == "name" || key == "path" || key == "category" || key == "hooks" || key == "keys" || key == "requires"
    || key == "tick_hz" || key == "enabled"
  }

  lemma SameField(u: seq<Field>, v: seq<Field>, key: string)
    requires Lookup(u, key) == Lookup(v, key)
    ensures FieldString(u, key) == FieldString(v, key)
    ensures forall required :: FieldStrings(u, key, required) == FieldStrings(v, key, required)
    ensures forall default :: FieldNumber(u, key, default) == FieldNumber(v, key, default)
    ensures forall default :: FieldBool(u, key, default) == FieldBool(v, key, default)
  {
  }

  /** A member of a script with any other key, wherever it stands, changes nothing. */
  lemma OtherScriptMember(a: seq<Field>, f: Field, b: seq<Field>)
    requires !IsScriptKey(f.key)
    ensures BindingOf(a + [f] + b) == BindingOf(a + b)
  {
    var u, v := a + [f] + b, a + b;
    forall key | IsScriptKey(key) ensures Lookup(u, key) == Lookup(v, key) {
      LookupSkips(a, f, b, key);
    }
    hide Lookup, ParseCategory, Hooks, FieldString, FieldStrings, FieldNumber, FieldBool;
    SameField(u, v, "name");
    SameField(u, v, "path");
    SameField(u, v, "category");
    SameField(u, v, "hooks");
    SameField(u, v, "keys");
    SameField(u, v, "requires");
    SameField(u, v, "tick_hz");
    SameField(u, v, "enabled");
  }

  lemma {:induction false} SameBindings(items: seq<Value>, i: nat, u: seq<Field>, v: seq<Field>)
    requires i < |items| && BindingOf(u) == BindingOf(v)
    ensures Bindings(items[i := Object(u)]) == Bindings(items[i := Object(v)])
  {
    hide BindingOf;
    var n := |items| - 1;
    if i < n {
      SameBindings(items[..n], i, u, v);
      assert items[i := Object(u)][..n] == items[..n][i := Object(u)];
      assert items[i := Object(v)][..n] == items[..n][i := Object(v)];
    } else {
      assert items[i := Object(u)][..n] == items[..n] == items[i := Object(v)][..n];
    }
  }

  /** In the list of scripts too. */
  lemma OtherMemberInList(items: seq<Value>, i: nat, a: seq<Field>, f: Field, b: seq<Field>)
    requires i < |items| && !IsScriptKey(f.key)
    ensures Bindings(items[i := Object(a + [f] + b)]) == Bindings(items[i := Object(a + b)])
  {
    OtherScriptMember(a, f, b);
    SameBindings(items, i, a + [f] + b, a + b);
  }

  /** A member of the root that is neither version nor scripts changes nothing, wherever it stands. */
  lemma OtherMember(a: seq<Field>, f: Field, b: seq<Field>)
    requires f.key != "version" && f.key != "scripts"
    ensures ManifestOf(Object(a + [f] + b)) == ManifestOf(Object(a + b))
  {
    hide Lookup, Bindings;
    LookupSkips(a, f, b, "version");
    LookupSkips(a, f, b, "scripts");
  }

  /** The shape of the manifest that ships with the server: two notes between version and scripts. */
  lemma NotesAreIgnored(version: Value, comment: Value, note: Value, scripts: Value)
    ensures var v, s := Field("version", version), Field("scripts", scripts);
            ManifestOf(Object([v, Field("comment", comment), Field("limit_note", note), s]))
            == ManifestOf(Object([v, s]))
  {
    hide ManifestOf;
    var v, c, n, s := Field("version", version), Field("comment", comment), Field("limit_note", note),
                      Field("scripts", scripts);
    assert |"comment"| == 7 && |"limit_note"| == 10 && |"version"| == 7 && |"scripts"| == 7;
    assert "comment"[0] == 'c' && "version"[0] == 'v' && "scripts"[0] == 's';
    OtherMember([v], c, [n, s]);
    OtherMember([v], n, [s]);
    assert [v] + [c] + [n, s] == [v, c, n, s] && [v] + [n, s] == [v] + [n] + [s] && [v] + [s] == [v, s];
  }

  lemma ReadIffDescribed(text: string)
    ensures forall m :: ReadManifest(text) == Some(m) <==>
              exists root :: Parsed(text) == Some(root) && DescribesManifest(root, m)
  {
    hide Parsed, ReadManifest, DescribesManifest;
    forall m
      ensures ReadManifest(text) == Some(m) <==> exists root :: Parsed(text) == Some(root) && DescribesManifest(root, m)
    {
      ReadIff(text, m);
    }
  }

  method ParseManifest(text: string) returns (m: Option<ScriptManifest>)
    ensures m == ReadManifest(text)
    ensures forall x :: m == Some(x) <==> exists root :: Parsed(text) == Some(root) && DescribesManifest(root, x)
  {
    ReadIffDescribed(text);
    hide Parsed, Bindings, BindingOf, Lookup, FieldNumber, DescribesManifest;
    var parser := new JsonParser(text);
    var ok, root := parser.Parse();
    if !ok || !root.Object? {
      return None;
    }
    var version := FieldNumber(root.fields, "version", 1.0);
    if version == None {
      return None;
    }
    var list := Find(root.fields, "scripts");
    if list == None || !list.value.Array? {
      return None;
    }
    var scripts := ParseScripts(list.value.items);
    if scripts == None {
      return None;
    }
    return Some(ScriptManifest(ToUint32(version.value), scripts.value));
  }

  /** The loop over the list of scripts. */
  method ParseScripts(items: seq<Value>) returns (r: Option<seq<ScriptBinding>>)
    ensures r == Bindings(items)
  {
    hide BindingOf, Describes;
    var scripts: seq<ScriptBinding> := [];
    for i := 0 to |items|
      invariant Bindings(items[..i]) == Some(scripts)
    {
      assert items[..i + 1][..i] == items[..i];
      if !items[i].Object? {
        BindingsAt(items, i);
        return None;
      }
      var binding := ParseOneBinding(items[i].fields);
      if binding == None {
        BindingsAt(items, i);
        return None;
      }
      scripts := scripts + [binding.value];
    }
    assert items[..|items|] == items;
    return Some(scripts);
  }

  // ----- printing -----

  /** No quote and no backslash: the printer writes strings without escapes. */
  predicate Plain(s: string) {
    forall i :: 0 <= i < |s| ==> s[i] != '"' && s[i] != '\\'
  }

  /** What the printer writes behind a key. */
  datatype Item = Str(str: string) | Strs(strs: seq<string>) | Amount(number: real) | Switch(on: bool)

  datatype Fields = Last | More(key: string, item: Item, next: Fields)

  // The texts are written with what follows them as the last argument.

  function Quoted(s: string, tail: string): string {
    "\"" + (s + ("\"" + tail))
  }

  function ListText(xs: seq<string>, tail: string): string {
    if |xs| == 0 then tail
    else Quoted(xs[0], (if |xs| == 1 then "" else ", ") + ListText(xs[1..], tail))
  }

  function ItemText(item: Item, tail: string): string {
    match item
    case Str(s) => Quoted(s, tail)
    case Strs(xs) => "[" + ListText(xs, "]" + tail)
    case Amount(x) => Streamed(x) + tail
    case Switch(on) => (if on then "true" else "false") + tail
  }

  function FieldsText(fs: Fields, tail: string): string {
    match fs
    case Last => tail
    case More(key, item, next) =>
      Quoted(key, ": " + ItemText(item, (if next.Last? then "" else ", ") + FieldsText(next, tail)))
  }

  function HookNames(hooks: seq<Hook>): (names: seq<string>)
    ensures |names| == |hooks| && forall i :: 0 <= i < |hooks| ==> names[i] == HookName(hooks[i])
  {
    seq(|hooks|, i requires 0 <= i < |hooks| => HookName(hooks[i]))
  }

  function FieldsOf(b: ScriptBinding): Fields {
    More("name", Str(b.name), More("path", Str(b.path), More("category", Str(CategoryName(b.category)),
    More("hooks", Strs(HookNames(b.hooks)), Optional(b)))))
  }

  function Optional(b: ScriptBinding): Fields {
    More("keys", Strs(b.keys), More("requires", Strs(b.requiresRefs),
    More("tick_hz", Amount(b.tickHz), More("enabled", Switch(b.enabled), Last))))
  }

  function ScriptsText(scripts: seq<ScriptBinding>, tail: string): string {
    if |scripts| == 0 then tail
    else "    { " + FieldsText(FieldsOf(scripts[0]), " }" + ((if |scripts| == 1 then "" else ",") +
      ("\n" + ScriptsText(scripts[1..], tail))))
  }

  function Printed(m: ScriptManifest): string {
    "{\n  " + Quoted("version", ": " + (Decimal(m.version) + (",\n  " +
      Quoted("scripts", ": " + ("[\n" + ScriptsText(m.scripts, "  ]" + "\n}\n"))))))
  }

  // ----- reading what was printed -----

  function ListValues(xs: seq<string>): (vs: seq<Value>)
    ensures |vs| == |xs| && forall i :: 0 <= i < |xs| ==> vs[i] == String(xs[i])
  {
    seq(|xs|, i requires 0 <= i < |xs| => String(xs[i]))
  }

  function ItemValue(item: Item): Value {
    match item
    case Str(s) => String(s)
    case Strs(xs) => Array(ListValues(xs))
    case Amount(x) => Number(Rounded(x))
    case Switch(on) => Bool(on)
  }

  function FieldValues(fs: Fields): seq<Field> {
    match fs
    case Last => []
    case More(key, item, next) => [Field(key, ItemValue(item))] + FieldValues(next)
  }

  predicate PlainAll(xs: seq<string>) {
    forall i :: 0 <= i < |xs| ==> Plain(xs[i])
  }

  predicate PlainItem(item: Item) {
    match item
    case Str(s) => Plain(s)
    case Strs(xs) => PlainAll(xs)
    case _ => true
  }

  predicate PlainFields(fs: Fields) {
    fs.Last? || (PlainItem(fs.item) && PlainFields(fs.next))
  }

  /** Is this what the printer writes behind the closing quote of a string? */
  predicate BehindString(tail: string) {
    |tail| >= 3 && ((tail[0] == ',' && tail[1] == ' ' && tail[2] == '"')
                    || (|tail| >= 4 && tail[0] == ']' && tail[1] == ',' && tail[2] == ' ' && tail[3] == '"'))
  }

  lemma {:induction false} PlainBody(s: string, tail: string)
    requires Plain(s)
    ensures StringBody(s + ("\"" + tail)) == Body(s, |s| + 1)
  {
    var t := s + ("\"" + tail);
    if |s| == 0 {
    } else {
      assert t[1..] == s[1..] + ("\"" + tail);
      PlainBody(s[1..], tail);
      assert s == [s[0]] + s[1..];
    }
  }

  lemma EscapedTail(tail: string)
    requires BehindString(tail)
    ensures StringBody(tail).Body? && |StringBody(tail).text| > 0
    ensures StringBody(tail).text[|StringBody(tail).text| - 1] == ' '
  {
    if tail[0] == ',' {
      assert tail[1..][1..][0] == '"';
      assert StringBody(tail[1..][1..]) == Body("", 1);
      assert StringBody(tail[1..]) == Body(" " + "", 2);
    } else {
      assert tail[1..][1..][1..][0] == '"';
      assert StringBody(tail[1..][1..][1..]) == Body("", 1);
      assert StringBody(tail[1..][1..]) == Body(" " + "", 2);
      assert StringBody(tail[1..]) == Body("," + (" " + ""), 3);
    }
  }

  /** Is the text that was read shorter than s, or does it end in a blank where s ends in a backslash? */
  predicate Spoilt(text: string, s: string) {
    |text| < |s| || (|text| > 0 && |s| > 0 && text[|text| - 1] == ' ' && s[|s| - 1] == '\\')
  }

  /** A string printed with a quote or a backslash in it is never read back as it was. */
  lemma {:induction false} SpoiltBody(s: string, tail: string)
    requires !Plain(s) && BehindString(tail)
    ensures var b := StringBody(s + ("\"" + tail)); b.Body? ==> Spoilt(b.text, s)
    decreases |s|
  {
    hide Utf8, Escaped, HexPart, Hex4;
    var t := s + ("\"" + tail);
    if s[0] == '"' {
    } else if s[0] != '\\' {
      assert t[1..] == s[1..] + ("\"" + tail);
      assert !Plain(s[1..]) by {
        var i :| 0 <= i < |s| && !(s[i] != '"' && s[i] != '\\');
        assert s[1..][i - 1] == s[i];
      }
      SpoiltBody(s[1..], tail);
    } else if |s| == 1 {
      assert t[2..] == tail;
      EscapedTail(tail);
    } else {
      SpoiltEscape(s, tail, t);
    }
  }

  /** The closing quote comes before the fourth hex digit. */
  lemma CutHex(s: string, tail: string, t: string)
    requires 1 < |s| < 6 && t == s + ("\"" + tail) && |tail| >= 3
    ensures Hex4(t[2..]) == None
  {
    assert t[2..][|s| - 2] == '"';
  }

  /** What is put before a spoilt text, if it is shorter than what it was printed from. */
  lemma SpoiltBehind(front: string, text: string, s: string, step: nat)
    requires |front| < step <= |s| && (text == s[step..] || Spoilt(text, s[step..]))
    ensures Spoilt(front + text, s)
  {
  }

  /** One escape reads as fewer characters than it takes. */
  lemma EscapeIs(t: string, step: nat)
    requires |t| > 1 && t[0] == '\\' && step == (if t[1] == 'u' then 6 else 2) <= |t|
    ensures StringBody(t).Body? ==>
              var b := StringBody(t[step..]);
              var text := StringBody(t).text;
              b.Body? && |text| >= |b.text|
              && var k := |text| - |b.text|; k < step && text == text[..k] + b.text
  {
    hide Utf8, Escaped, HexPart;
  }

  lemma {:induction false} SpoiltEscape(s: string, tail: string, t: string)
    requires BehindString(tail) && |s| > 1 && s[0] == '\\' && t == s + ("\"" + tail)
    ensures StringBody(t).Body? ==> Spoilt(StringBody(t).text, s)
    decreases |s|, 0
  {
    assert t[0] == s[0] && t[1] == s[1];
    var step := if s[1] == 'u' then 6 else 2;
    if step == 6 && |s| < 6 {
      CutHex(s, tail, t);
    } else {
      hide StringBody, Spoilt;
      EscapeIs(t, step);
      var rest := s[step..];
      assert t[step..] == rest + ("\"" + tail);
      if Plain(rest) {
        PlainBody(rest, tail);
      } else {
        SpoiltBody(rest, tail);
      }
      if StringBody(t).Body? {
        var text := StringBody(t[step..]).text;
        SpoiltBehind(StringBody(t).text[..|StringBody(t).text| - |text|], text, s, step);
      }
    }
  }

  /** A quoted string is read back exactly if it is plain. */
  lemma QuotedIsRead(s: string, tail: string)
    ensures |Tokens(Quoted(s, tail))| > 0
    ensures Plain(s) ==> Tokens(Quoted(s, tail)) == [Text(s)] + Tokens(tail)
    ensures !Plain(s) && BehindString(tail) ==>
              var first := Tokens(Quoted(s, tail))[0]; first == Bad || (first.Text? && first.str != s)
  {
    hide StringBody, Tokens, Scan;
    var t := Quoted(s, tail);
    FirstToken(t);
    assert t[1..] == s + ("\"" + tail);
    if Plain(s) {
      PlainBody(s, tail);
      assert t[1 + (|s| + 1)..] == tail;
    } else if BehindString(tail) {
      SpoiltBody(s, tail);
    }
  }

  /** The parts of a printed number among all the ways of writing one. */
  function AsWritten(p: Parts): W.Written {
    W.Written(if p.negative then "-" else "", p.whole, if p.fraction == "" then "" else ".", p.fraction,
              if p.exponent == "" then "" else "e", if p.exponent == "" then "" else p.exponent[..1],
              if p.exponent == "" then "" else p.exponent[1..])
  }

  lemma SameSize(whole: string, fraction: string)
    requires AllDigits(whole) && AllDigits(fraction)
    ensures W.SizeOf(whole, fraction) == SizeOf(whole, fraction)
  {
    W.NoFraction(whole);
  }

  lemma SameScale(size: real, exponent: string)
    requires ExponentOk(exponent) && exponent != ""
    ensures AllDigits(exponent[1..]) && W.Scaled(size, exponent[..1], exponent[1..]) == Scaled(size, exponent)
  {
    hide Pow10, DigitsValue, AllDigits;
    assert exponent[..1] == [exponent[0]];
  }

  lemma SameText(p: Parts)
    ensures W.Text(AsWritten(p)) == PartsText(p)
  {
    assert p.exponent != "" ==> p.exponent == p.exponent[..1] + p.exponent[1..];
  }

  lemma SameNumber(p: Parts)
    requires PartsOk(p)
    ensures W.WrittenOk(AsWritten(p)) && W.Denoted(AsWritten(p)) == PartsValue(p)
  {
    hide SizeOf, Scaled, W.SizeOf, W.Scaled;
    SameSize(p.whole, p.fraction);
    var size := SizeOf(p.whole, p.fraction);
    if p.exponent == "" {
      NoScale(size);
      W.NoExponent(size, "");
    } else {
      SameScale(size, p.exponent);
      assert p.exponent[..1] == [p.exponent[0]];
    }
  }

  lemma NoScale(size: real)
    ensures Scaled(size, "") == size
  {
  }

  lemma PartsAreRead(p: Parts, tail: string)
    requires PartsOk(p) && |tail| > 0 && !Continues(tail[0])
    ensures Tokens(PartsText(p) + tail) == [Numeral(PartsValue(p))] + Tokens(tail)
  {
    hide Tokens, PartsText, PartsOk, PartsValue, AsWritten;
    SameText(p);
    SameNumber(p);
    W.NumberIsRead(AsWritten(p), tail);
  }

  /** A printed whole number is read back. */
  lemma DecimalIsRead(n: nat, tail: string)
    requires |tail| > 0 && !Continues(tail[0])
    ensures Tokens(Decimal(n) + tail) == [Numeral(n as real)] + Tokens(tail)
  {
    var p := Parts(false, Decimal(n), "", "");
    PlainNumber(Decimal(n));
    hide PartsText, PartsValue, Tokens, Decimal, DigitsValue;
    DecimalRoundTrip(n);
    PartsAreRead(p, tail);
  }

  lemma PlainNumber(digits: string)
    requires |digits| > 0 && AllDigits(digits)
    ensures var p := Parts(false, digits, "", "");
            PartsText(p) == digits && PartsOk(p) && PartsValue(p) == DigitsValue(digits) as real
  {
    hide DigitsValue, Pow10, SizeOf, Scaled, W.SizeOf;
    SameSize(digits, "");
    W.NoFraction(digits);
    NoScale(SizeOf(digits, ""));
    PlainText(digits);
    hide PartsText;
  }

  lemma PlainText(digits: string)
    ensures PartsText(Parts(false, digits, "", "")) == digits
  {
  }

  /** A written number is read as what was left of it by rounding. */
  lemma AmountIsRead(x: real, tail: string)
    requires |tail| > 0 && !Continues(tail[0])
    ensures Tokens(Streamed(x) + tail) == [Numeral(Rounded(x))] + Tokens(tail)
  {
    hide PartsText, Tokens, PartsOf, PartsOk, PartsValue, Rounded;
    PartsAreRounded(x);
    PartsAreRead(PartsOf(x), tail);
  }

  function Mark(c: char): Token
    requires IsPunctuation(c)
  {
    match c
    case '{' => ObjectOpen
    case '}' => ObjectClose
    case '[' => ArrayOpen
    case ']' => ArrayClose
    case ':' => Colon
    case _ => Comma
  }

  /** A punctuation mark with white space behind it. */
  lemma MarkIsRead(mark: string, tail: string)
    requires |mark| > 0 && IsPunctuation(mark[0]) && Blank(mark[1..])
    ensures Tokens(mark + tail) == [Mark(mark[0])] + Tokens(tail)
  {
    hide Tokens;
    var t := mark + tail;
    FirstToken(t);
    assert t[1..] == mark[1..] + tail;
    LeadingBlanks(mark[1..], tail);
  }

  lemma SwitchIsRead(on: bool, tail: string)
    ensures Tokens((if on then "true" else "false") + tail) == [Flag(on)] + Tokens(tail)
  {
    hide Tokens;
    var word := if on then "true" else "false";
    var t := word + tail;
    assert t[0] == word[0];
    WordToken(t);
    assert t[|word|..] == tail;
  }

  lemma MoreElementsKeeps(items: seq<Value>, ts: seq<Token>)
    requires |items| > 0
    ensures MoreElements(items, ts).Read? ==> items <= MoreElements(items, ts).value
  {
    hide ReadElements;
  }

  lemma MoreMembersKeeps(fields: seq<Field>, ts: seq<Token>)
    requires |fields| > 0
    ensures MoreMembers(fields, ts).Read? ==> fields <= MoreMembers(fields, ts).value
  {
    hide ReadMembers;
  }

  lemma PlainAllSplit(xs: seq<string>)
    requires |xs| > 0
    ensures PlainAll(xs) <==> Plain(xs[0]) && (|xs| == 1 || PlainAll(xs[1..]))
  {
    hide Plain;
    assert forall i :: 0 <= i < |xs| - 1 ==> xs[1..][i] == xs[i + 1];
    assert forall i :: 1 <= i < |xs| ==> xs[i] == xs[1..][i - 1];
  }

  lemma ElementThenMore(ts: seq<Token>, x: string, more: seq<Token>)
    requires ts == [Text(x), Comma] + more
    ensures ReadElements(ts) == Joined([String(x)], ReadElements(more))
  {
    FirstValue(ts);
    assert ts[1..] == [Comma] + more && ts[1..][1..] == more;
    hide ReadValue;
  }

  lemma LastElement(ts: seq<Token>, x: string, tail: seq<Token>)
    requires ts == [Text(x), ArrayClose] + tail
    ensures ReadElements(ts) == Read([String(x)], tail)
  {
    FirstValue(ts);
    assert ts[1..] == [ArrayClose] + tail && ts[1..][1..] == tail;
    hide ReadValue;
  }

  lemma WrongFirst(ts: seq<Token>, x: string)
    requires |ts| > 0 && (ts[0] == Bad || (ts[0].Text? && ts[0].str != x))
    ensures var r := ReadElements(ts); r.Fail? || r.value[0] != String(x)
  {
    FirstValue(ts);
    hide ReadValue;
  }

  lemma ListTextIs(xs: seq<string>, tail: string)
    requires |xs| > 0
    ensures |xs| == 1 ==> ListText(xs, tail) == Quoted(xs[0], tail)
    ensures |xs| > 1 ==> ListText(xs, tail) == Quoted(xs[0], ", " + ListText(xs[1..], tail))
    ensures |xs| > 1 ==> BehindString(", " + ListText(xs[1..], tail))
  {
    assert |xs| == 1 ==> "" + ListText(xs[1..], tail) == tail;
    assert |xs| > 1 ==> ListText(xs[1..], tail)[0] == '"';
  }

  /** A printed list of strings is read back exactly if all are plain. */
  lemma {:induction false} ListIsRead(xs: seq<string>, tail: string)
    requires |xs| > 0 && BehindString("]" + tail)
    ensures var r := ReadElements(Tokens(ListText(xs, "]" + tail)));
            if PlainAll(xs) then r == Read(ListValues(xs), Tokens(tail))
            else r.Fail? || r.value != ListValues(xs)
    decreases |xs|
  {
    hide Tokens, ReadValue, Plain, PlainAll, ListText, Quoted, ReadElements;
    var x := xs[0];
    PlainAllSplit(xs);
    ListTextIs(xs, "]" + tail);
    if |xs| == 1 {
      QuotedIsRead(x, "]" + tail);
      if Plain(x) {
        MarkIsRead("]", tail);
        LastElement(Tokens(Quoted(x, "]" + tail)), x, Tokens(tail));
        assert ListValues(xs) == [String(x)];
      } else {
        WrongFirst(Tokens(Quoted(x, "]" + tail)), x);
      }
    } else {
      var rest := ListText(xs[1..], "]" + tail);
      QuotedIsRead(x, ", " + rest);
      if Plain(x) {
        MarkIsRead(", ", rest);
        ElementThenMore(Tokens(Quoted(x, ", " + rest)), x, Tokens(rest));
        ListIsRead(xs[1..], tail);
        assert ListValues(xs) == [String(x)] + ListValues(xs[1..]);
      } else {
        WrongFirst(Tokens(Quoted(x, ", " + rest)), x);
      }
    }
  }

  /** A string read for a different string, or a list for a different list. */
  predicate Misread(v: Value, item: Item) {
    v != ItemValue(item) && ((item.Str? && v.String?) || (item.Strs? && v.Array?))
  }

  lemma StrIsRead(s: string, tail: string)
    requires BehindString(tail)
    ensures var r := ReadValue(Tokens(Quoted(s, tail)));
            if Plain(s) then r == Read(String(s), Tokens(tail)) else r.Fail? || (r.value.String? && r.value.str != s)
  {
    hide Tokens, ReadValue, Quoted, Plain;
    QuotedIsRead(s, tail);
    FirstValue(Tokens(Quoted(s, tail)));
  }

  /** What a printed item is read as. */
  lemma ItemIsRead(item: Item, tail: string)
    requires |tail| > 0 && !Continues(tail[0])
    requires item.Str? ==> BehindString(tail)
    requires item.Strs? ==> BehindString("]" + tail)
    ensures var r := ReadValue(Tokens(ItemText(item, tail)));
            if PlainItem(item) then r == Read(ItemValue(item), Tokens(tail))
            else r.Fail? || Misread(r.value, item)
  {
    hide Tokens, ReadValue, ListText, Quoted, PlainAll, Plain, Streamed, Rounded;
    match item
    case Str(s) => StrIsRead(s, tail);
    case Amount(x) =>
      AmountIsRead(x, tail);
      FirstValue(Tokens(Streamed(x) + tail));
    case Switch(on) =>
      SwitchIsRead(on, tail);
      FirstValue(Tokens((if on then "true" else "false") + tail));
    case Strs(xs) => StrsAreRead(xs, tail);
  }

  lemma StrsAreRead(xs: seq<string>, tail: string)
    requires BehindString("]" + tail)
    ensures var r := ReadValue(Tokens("[" + ListText(xs, "]" + tail)));
            if PlainAll(xs) then r == Read(Array(ListValues(xs)), Tokens(tail))
            else r.Fail? || (r.value.Array? && r.value.items != ListValues(xs))
  {
    hide Tokens, ReadValue, ReadElements, Plain;
    var list := ListText(xs, "]" + tail);
    MarkIsRead("[", list);
    FirstValue(Tokens("[" + list));
    assert Tokens("[" + list)[1..] == Tokens(list);
    if |xs| == 0 {
      MarkIsRead("]", tail);
      assert Tokens(list)[1..] == Tokens(tail);
      assert ListValues(xs) == [];
    } else {
      ListIsRead(xs, tail);
      ListStarts(xs, "]" + tail);
    }
  }

  lemma ListStarts(xs: seq<string>, tail: string)
    requires |xs| > 0
    ensures |Tokens(ListText(xs, tail))| > 0 && Tokens(ListText(xs, tail))[0] != ArrayClose
  {
    hide Tokens;
    FirstToken(ListText(xs, tail));
  }

  /** Did reading go wrong at one of the printed fields, after the fields before it were read well? */
  predicate FieldsMisread(fields: seq<Field>, fs: Fields)
    decreases fs
  {
    fs.More? && |fields| > 0 && fields[0].key == fs.key
    && (Misread(fields[0].value, fs.item)
        || (fields[0].value == ItemValue(fs.item) && FieldsMisread(fields[1..], fs.next)))
  }

  /** Keys are plain, and the last item is not a string or a list of strings. */
  predicate Printable(fs: Fields) {
    fs.More? && Plain(fs.key)
    && (if fs.next.Last? then fs.item.Switch? || fs.item.Amount? else Printable(fs.next))
  }

  /** Printed fields are read back exactly if their strings are plain. */
  lemma {:induction false} FieldsAreRead(fs: Fields, tail: string)
    requires Printable(fs)
    ensures var r := ReadMembers(Tokens(FieldsText(fs, " }" + tail)));
            if PlainFields(fs) then r == Read(FieldValues(fs), Tokens(tail))
            else r.Fail? || FieldsMisread(r.value, fs)
    decreases fs
  {
    hide Tokens, ReadValue, ItemText, PlainItem, ItemValue, Misread, Plain;
    var More(key, item, next) := fs;
    var behind := (if next.Last? then "" else ", ") + FieldsText(next, " }" + tail);
    var text := ItemText(item, behind);
    var ts := Tokens(FieldsText(fs, " }" + tail));
    QuotedIsRead(key, ": " + text);
    MarkIsRead(": ", text);
    assert ts[2..] == Tokens(text);
    BehindItem(fs, tail);
    ItemIsRead(item, behind);
    var r := ReadValue(Tokens(text));
    if r.Read? {
      MoreMembersKeeps([Field(key, r.value)], r.rest);
      if PlainItem(item) {
        if next.Last? {
          assert behind == " " + ("}" + tail);
          LeadingBlanks(" ", "}" + tail);
          MarkIsRead("}", tail);
          assert r.rest[1..] == Tokens(tail);
          assert PlainFields(fs);
          assert ReadMembers(ts) == Read([Field(key, r.value)], Tokens(tail));
          assert FieldValues(fs) == [Field(key, ItemValue(item))];
        } else {
          MarkIsRead(", ", FieldsText(next, " }" + tail));
          FieldsAreRead(next, tail);
          assert r.rest[1..] == Tokens(FieldsText(next, " }" + tail));
          var rest := ReadMembers(Tokens(FieldsText(next, " }" + tail)));
          if rest.Read? {
            assert ([Field(key, r.value)] + rest.value)[1..] == rest.value;
          }
        }
      }
    }
  }

  /** What stands behind a printed item. */
  lemma BehindItem(fs: Fields, tail: string)
    requires Printable(fs)
    ensures var behind := (if fs.next.Last? then "" else ", ") + FieldsText(fs.next, " }" + tail);
            |behind| > 0 && !Continues(behind[0])
            && (!fs.next.Last? ==> BehindString(behind) && BehindString("]" + behind))
  {
  }

  // ----- what the readers make of it -----

  predicate HasField(fs: Fields, key: string, item: Item) {
    fs.More? && ((fs.key == key && fs.item == item) || HasField(fs.next, key, item))
  }

  predicate HasKey(fs: Fields, key: string) {
    fs.More? && (fs.key == key || HasKey(fs.next, key))
  }

  predicate DistinctKeys(fs: Fields) {
    fs.Last? || (!HasKey(fs.next, fs.key) && DistinctKeys(fs.next))
  }

  lemma {:induction false} FieldHasKey(fs: Fields, key: string, item: Item)
    requires HasField(fs, key, item)
    ensures HasKey(fs, key)
  {
    if !(fs.key == key && fs.item == item) {
      FieldHasKey(fs.next, key, item);
    }
  }

  /** Every printed field is found under its key. */
  lemma {:induction false} LookupPrinted(fs: Fields, key: string, item: Item)
    requires HasField(fs, key, item) && DistinctKeys(fs)
    ensures Lookup(FieldValues(fs), key) == Some(ItemValue(item))
    decreases fs
  {
    if !(fs.key == key && fs.item == item) {
      FieldHasKey(fs.next, key, item);
      LookupPrinted(fs.next, key, item);
      assert FieldValues(fs)[1..] == FieldValues(fs.next);
    }
  }

  /** Where reading went wrong, the wrong value is the one found under the key. */
  lemma {:induction false} LookupMisread(fields: seq<Field>, fs: Fields) returns (key: string, item: Item)
    requires FieldsMisread(fields, fs) && DistinctKeys(fs)
    ensures HasField(fs, key, item) && Lookup(fields, key).Some? && Misread(Lookup(fields, key).value, item)
    decreases fs
  {
    hide Misread;
    if Misread(fields[0].value, fs.item) {
      return fs.key, fs.item;
    }
    key, item := LookupMisread(fields[1..], fs.next);
    FieldHasKey(fs.next, key, item);
  }

  /** A key that starts like none of the later keys is none of them. */
  lemma NoLaterKey(b: ScriptBinding, key: string)
    requires |key| > 0
    ensures key[0] !in {'e'} ==> !HasKey(Optional(b).next.next.next, key)
    ensures key[0] !in {'e', 't'} ==> !HasKey(Optional(b).next.next, key)
    ensures key[0] !in {'e', 't', 'r'} ==> !HasKey(Optional(b).next, key)
    ensures key[0] !in {'e', 't', 'r', 'k'} ==> !HasKey(Optional(b), key)
    ensures key[0] !in {'e', 't', 'r', 'k', 'h'} ==> !HasKey(FieldsOf(b).next.next.next, key)
    ensures key[0] !in {'e', 't', 'r', 'k', 'h', 'c'} ==> !HasKey(FieldsOf(b).next.next, key)
    ensures key[0] !in {'e', 't', 'r', 'k', 'h', 'c', 'p'} ==> !HasKey(FieldsOf(b).next, key)
  {
    assert "path"[0] == 'p' && "category"[0] == 'c' && "hooks"[0] == 'h';
    assert "keys"[0] == 'k' && "requires"[0] == 'r' && "tick_hz"[0] == 't' && "enabled"[0] == 'e';
    assert !HasKey(Optional(b).next.next.next.next, key);
  }

  lemma KeysAreDistinct(b: ScriptBinding)
    ensures DistinctKeys(FieldsOf(b))
  {
    hide HasKey, CategoryName;
    NoLaterKey(b, "tick_hz");
    NoLaterKey(b, "requires");
    NoLaterKey(b, "keys");
    NoLaterKey(b, "hooks");
    NoLaterKey(b, "category");
    NoLaterKey(b, "path");
    NoLaterKey(b, "name");
    assert !HasKey(Last, "enabled") by { NoKeyInLast("enabled"); }
    assert DistinctKeys(Optional(b).next.next.next);
    assert DistinctKeys(Optional(b).next);
    assert DistinctKeys(FieldsOf(b).next.next.next);
    assert DistinctKeys(FieldsOf(b).next);
  }

  lemma NoKeyInLast(key: string)
    ensures !HasKey(Last, key)
  {
  }

  lemma FieldsArePrintable(b: ScriptBinding)
    ensures Printable(FieldsOf(b))
    ensures PlainFields(FieldsOf(b)) <==> PlainBinding(b)
  {
    NamesRoundTrip(b.category, QuestEvent, "");
    forall i | 0 <= i < |b.hooks| ensures Plain(HookNames(b.hooks)[i]) {
      NamesRoundTrip(b.category, b.hooks[i], "");
    }
    hide CategoryName, HookNames;
    assert Printable(Optional(b).next.next);
    assert Printable(Optional(b));
    assert Printable(FieldsOf(b).next.next);
    assert PlainFields(Optional(b).next.next.next.next);
    assert PlainFields(Optional(b).next.next.next);
    assert PlainFields(Optional(b).next.next);
    assert PlainFields(Optional(b)) <==> PlainAll(b.keys) && PlainAll(b.requiresRefs);
    assert PlainFields(FieldsOf(b).next.next) <==> PlainFields(Optional(b));
  }

  /** Can the printer write the strings of b as they are? */
  predicate PlainBinding(b: ScriptBinding) {
    Plain(b.name) && Plain(b.path) && PlainAll(b.keys) && PlainAll(b.requiresRefs)
  }

  /** The fields the printer writes for a binding. */
  lemma FieldsListed(b: ScriptBinding)
    ensures HasField(FieldsOf(b), "name", Str(b.name)) && HasField(FieldsOf(b), "path", Str(b.path))
    ensures HasField(FieldsOf(b), "category", Str(CategoryName(b.category)))
    ensures HasField(FieldsOf(b), "hooks", Strs(HookNames(b.hooks)))
    ensures HasField(FieldsOf(b), "keys", Strs(b.keys)) && HasField(FieldsOf(b), "requires", Strs(b.requiresRefs))
    ensures HasField(FieldsOf(b), "tick_hz", Amount(b.tickHz))
    ensures HasField(FieldsOf(b), "enabled", Switch(b.enabled))
  {
    hide CategoryName, HookNames;
    forall key, item ensures HasField(Optional(b), key, item) ==> HasField(FieldsOf(b).next, key, item) {
      assert HasField(Optional(b), key, item) ==> HasField(FieldsOf(b).next.next.next, key, item);
      assert HasField(FieldsOf(b).next.next.next, key, item) ==> HasField(FieldsOf(b).next.next, key, item);
    }
    assert HasField(Optional(b).next, "requires", Strs(b.requiresRefs));
    assert HasField(Optional(b).next.next, "tick_hz", Amount(b.tickHz));
    assert HasField(Optional(b).next.next.next, "enabled", Switch(b.enabled));
    assert HasField(Optional(b).next.next, "enabled", Switch(b.enabled));
    assert HasField(Optional(b).next, "enabled", Switch(b.enabled));
    assert HasField(FieldsOf(b).next.next, "category", Str(CategoryName(b.category)));
    assert HasField(FieldsOf(b).next.next.next, "hooks", Strs(HookNames(b.hooks)));
    assert HasField(FieldsOf(b).next.next, "hooks", Strs(HookNames(b.hooks)));
    assert HasField(Optional(b), "keys", Strs(b.keys)) && HasField(Optional(b), "requires", Strs(b.requiresRefs));
    assert HasField(Optional(b), "tick_hz", Amount(b.tickHz));
    assert HasField(Optional(b), "enabled", Switch(b.enabled));
    assert HasField(FieldsOf(b).next, "path", Str(b.path));
    assert HasField(FieldsOf(b).next, "category", Str(CategoryName(b.category)));
    assert HasField(FieldsOf(b).next, "hooks", Strs(HookNames(b.hooks)));
  }

  lemma {:induction false} StringsAre(items: seq<Value>)
    ensures Strings(items).Some? ==> items == ListValues(Strings(items).value)
  {
    if |items| == 0 {
    } else {
      StringsAre(items[..|items| - 1]);
    }
  }

  lemma {:induction false} StringsOfList(xs: seq<string>)
    ensures Strings(ListValues(xs)) == Some(xs)
  {
    if |xs| == 0 {
    } else {
      var n := |xs| - 1;
      StringsOfList(xs[..n]);
      assert ListValues(xs)[..n] == ListValues(xs[..n]);
      assert xs == xs[..n] + [xs[n]];
    }
  }

  lemma {:induction false} HooksAre(names: seq<string>)
    ensures Hooks(names).Some? ==> names == HookNames(Hooks(names).value)
  {
    hide ParseHook, HookName;
    if |names| > 0 && Hooks(names).Some? {
      var n := |names| - 1;
      HooksAre(names[..n]);
      NamesRoundTrip(Quest, ParseHook(names[n]).value, names[n]);
    }
  }

  lemma {:induction false} HooksOfNames(hs: seq<Hook>)
    ensures Hooks(HookNames(hs)) == Some(hs)
  {
    hide ParseHook, HookName;
    if |hs| == 0 {
    } else {
      var n := |hs| - 1;
      HooksOfNames(hs[..n]);
      assert HookNames(hs)[..n] == HookNames(hs[..n]);
      NamesRoundTrip(Quest, hs[n], HookName(hs[n]));
      assert hs == hs[..n] + [hs[n]];
    }
  }

  /** What an object must hold for b to be read from it. */
  lemma BindingSays(fields: seq<Field>, b: ScriptBinding)
    requires BindingOf(fields) == Some(b)
    ensures Lookup(fields, "name") == Some(String(b.name)) && Lookup(fields, "path") == Some(String(b.path))
    ensures Lookup(fields, "category") == Some(String(CategoryName(b.category)))
    ensures Lookup(fields, "hooks") == Some(Array(ListValues(HookNames(b.hooks))))
    ensures forall items :: Lookup(fields, "keys") == Some(Array(items)) ==> items == ListValues(b.keys)
    ensures forall items :: Lookup(fields, "requires") == Some(Array(items)) ==> items == ListValues(b.requiresRefs)
  {
    hide Lookup, Strings, Hooks, ParseCategory, CategoryName;
    NamesRoundTrip(b.category, QuestEvent, FieldString(fields, "category").value);
    HooksAre(FieldStrings(fields, "hooks", true).value);
    forall items | Lookup(fields, "hooks") == Some(Array(items)) || Lookup(fields, "keys") == Some(Array(items))
                   || Lookup(fields, "requires") == Some(Array(items))
      ensures Strings(items).Some? ==> items == ListValues(Strings(items).value)
    {
      StringsAre(items);
    }
  }

  /** The binding with its tick_hz as it is written. */
  function Written(b: ScriptBinding): ScriptBinding {
    b.(tickHz := Rounded(b.tickHz))
  }

  /** A binding is read back from its printed fields. */
  lemma BindingOfPrinted(b: ScriptBinding)
    ensures BindingOf(FieldValues(FieldsOf(b))) == Some(Written(b))
  {
    hide Rounded, Lookup, Strings, Hooks, ParseCategory, CategoryName, FieldsOf, FieldValues, HasField, DistinctKeys;
    var fs := FieldsOf(b);
    FieldsListed(b);
    KeysAreDistinct(b);
    LookupPrinted(fs, "name", Str(b.name));
    LookupPrinted(fs, "path", Str(b.path));
    LookupPrinted(fs, "category", Str(CategoryName(b.category)));
    LookupPrinted(fs, "hooks", Strs(HookNames(b.hooks)));
    LookupPrinted(fs, "keys", Strs(b.keys));
    LookupPrinted(fs, "requires", Strs(b.requiresRefs));
    LookupPrinted(fs, "tick_hz", Amount(b.tickHz));
    LookupPrinted(fs, "enabled", Switch(b.enabled));
    NamesRoundTrip(b.category, QuestEvent, CategoryName(b.category));
    StringsOfList(HookNames(b.hooks));
    HooksOfNames(b.hooks);
    StringsOfList(b.keys);
    StringsOfList(b.requiresRefs);
  }

  /** A binding one of whose strings was misread is not read back. */
  lemma BindingMisread(fields: seq<Field>, b: ScriptBinding)
    requires FieldsMisread(fields, FieldsOf(b))
    ensures BindingOf(fields) != Some(b)
  {
    hide Lookup, BindingOf, CategoryName, FieldsMisread, DistinctKeys, Printable;
    if BindingOf(fields) == Some(b) {
      BindingSays(fields, b);
      KeysAreDistinct(b);
      var key, item := LookupMisread(fields, FieldsOf(b));
      FieldIsOneOf(b, key, item);
      assert false;
    }
  }

  lemma FieldIsOneOf(b: ScriptBinding, key: string, item: Item)
    requires HasField(FieldsOf(b), key, item)
    ensures (key == "name" && item == Str(b.name)) || (key == "path" && item == Str(b.path))
            || (key == "category" && item == Str(CategoryName(b.category)))
            || (key == "hooks" && item == Strs(HookNames(b.hooks)))
            || (key == "keys" && item == Strs(b.keys)) || (key == "requires" && item == Strs(b.requiresRefs))
            || item.Amount? || item.Switch?
  {
    hide CategoryName;
    var f2 := FieldsOf(b).next;
    assert HasField(f2, key, item) ==> (key == f2.key && item == f2.item) || HasField(f2.next, key, item);
    var f3 := f2.next;
    assert HasField(f3, key, item) ==> (key == f3.key && item == f3.item) || HasField(f3.next, key, item);
    var f4 := f3.next;
    assert HasField(f4, key, item) ==> (key == f4.key && item == f4.item) || HasField(f4.next, key, item);
    var f5 := Optional(b);
    assert HasField(f5, key, item) ==> (key == f5.key && item == f5.item) || HasField(f5.next, key, item);
    var f6 := f5.next;
    assert HasField(f6, key, item) ==> (key == f6.key && item == f6.item) || HasField(f6.next, key, item);
    var f7 := f6.next;
    assert HasField(f7, key, item) ==> item == f7.item || HasField(f7.next, key, item);
    assert HasField(f7.next, key, item) ==> item == f7.next.item || HasField(f7.next.next, key, item);
    assert !HasField(f7.next.next, key, item);
  }

  function ScriptValues(scripts: seq<ScriptBinding>): (vs: seq<Value>)
    ensures |vs| == |scripts|
    ensures forall i :: 0 <= i < |vs| ==> vs[i] == Object(FieldValues(FieldsOf(scripts[i])))
  {
    seq(|scripts|, i requires 0 <= i < |scripts| => Object(FieldValues(FieldsOf(scripts[i]))))
  }

  predicate PlainScripts(scripts: seq<ScriptBinding>) {
    forall i :: 0 <= i < |scripts| ==> PlainBinding(scripts[i])
  }

  predicate ScriptMisread(v: Value, b: ScriptBinding) {
    v.Object? && FieldsMisread(v.fields, FieldsOf(b))
  }

  predicate ScriptsMisread(values: seq<Value>, scripts: seq<ScriptBinding>) {
    exists i :: 0 <= i < |values| && i < |scripts| && ScriptMisread(values[i], scripts[i])
  }

  /** One printed script is read back exactly if its strings are plain. */
  lemma ScriptIsRead(b: ScriptBinding, tail: string)
    ensures var r := ReadValue(Tokens("    { " + FieldsText(FieldsOf(b), " }" + tail)));
            if PlainBinding(b) then r == Read(Object(FieldValues(FieldsOf(b))), Tokens(tail))
            else r.Fail? || ScriptMisread(r.value, b)
  {
    hide Tokens, ReadValue, ReadMembers, FieldsOf, FieldsMisread, PlainFields, PlainBinding;
    var text := FieldsText(FieldsOf(b), " }" + tail);
    assert "    { " + text == "    " + ("{ " + text);
    LeadingBlanks("    ", "{ " + text);
    MarkIsRead("{ ", text);
    FirstValue(Tokens("{ " + text));
    assert Tokens("{ " + text)[1..] == Tokens(text);
    FieldsArePrintable(b);
    FieldsAreRead(FieldsOf(b), tail);
    FirstToken(text);
  }

  lemma ListEnds(tail: string)
    ensures Tokens("\n  ]" + tail) == [ArrayClose] + Tokens(tail)
  {
    hide Tokens;
    assert "\n  ]" + tail == "\n  " + ("]" + tail);
    LeadingBlanks("\n  ", "]" + tail);
    MarkIsRead("]", tail);
  }

  lemma ListGoesOn(rest: string)
    ensures Tokens("," + ("\n" + rest)) == [Comma] + Tokens(rest)
  {
    hide Tokens;
    MarkIsRead(",", "\n" + rest);
    LeadingBlanks("\n", rest);
  }

  /** Printed scripts are read back exactly if all their strings are plain. */
  lemma {:induction false} ScriptsAreRead(scripts: seq<ScriptBinding>, tail: string)
    requires |scripts| > 0
    ensures var r := ReadElements(Tokens(ScriptsText(scripts, "  ]" + tail)));
            if PlainScripts(scripts) then r == Read(ScriptValues(scripts), Tokens(tail))
            else r.Fail? || ScriptsMisread(r.value, scripts)
    decreases |scripts|
  {
    hide Tokens, ReadValue, FieldsText, FieldValues, FieldsOf, PlainBinding, ScriptMisread;
    var rest := ScriptsText(scripts[1..], "  ]" + tail);
    var behind := (if |scripts| == 1 then "" else ",") + ("\n" + rest);
    var ts := Tokens(ScriptsText(scripts, "  ]" + tail));
    ScriptIsRead(scripts[0], behind);
    var r := ReadValue(ts);
    if r.Read? {
      MoreElementsKeeps([r.value], r.rest);
      if !PlainBinding(scripts[0]) {
        assert ReadElements(ts).Read? ==> ReadElements(ts).value[0] == r.value;
      } else if |scripts| == 1 {
        assert behind == "\n  ]" + tail;
        ListEnds(tail);
        assert r.rest[1..] == Tokens(tail);
        assert ScriptValues(scripts) == [r.value];
      } else {
        ListGoesOn(rest);
        assert r.rest[1..] == Tokens(rest);
        ScriptsAreRead(scripts[1..], tail);
        ScriptsBehind(scripts, r.value, ReadElements(Tokens(rest)));
      }
    }
  }

  lemma ScriptsBehind(scripts: seq<ScriptBinding>, first: Value, more: Read<seq<Value>>)
    requires |scripts| > 1 && PlainBinding(scripts[0]) && first == Object(FieldValues(FieldsOf(scripts[0])))
    ensures PlainScripts(scripts) <==> PlainScripts(scripts[1..])
    ensures [first] + ScriptValues(scripts[1..]) == ScriptValues(scripts)
    ensures more.Read? && ScriptsMisread(more.value, scripts[1..]) ==> ScriptsMisread([first] + more.value, scripts)
  {
    hide PlainBinding, FieldValues, FieldsOf, ScriptMisread;
    assert forall i :: 1 <= i < |scripts| ==> scripts[i] == scripts[1..][i - 1];
    if more.Read? && ScriptsMisread(more.value, scripts[1..]) {
      var i :| 0 <= i < |more.value| && i < |scripts[1..]| && ScriptMisread(more.value[i], scripts[1..][i]);
      assert ([first] + more.value)[i + 1] == more.value[i] && scripts[i + 1] == scripts[1..][i];
    }
  }

  /** The printed list of scripts. */
  lemma ScriptListIsRead(scripts: seq<ScriptBinding>, tail: string)
    ensures var r := ReadValue(Tokens("[\n" + ScriptsText(scripts, "  ]" + tail)));
            if PlainScripts(scripts) then r == Read(Array(ScriptValues(scripts)), Tokens(tail))
            else r.Fail? || (r.value.Array? && ScriptsMisread(r.value.items, scripts))
  {
    hide Tokens, ReadValue, ReadElements, FieldsText, FieldValues, FieldsOf, PlainBinding, ScriptsMisread;
    var list := ScriptsText(scripts, "  ]" + tail);
    MarkIsRead("[\n", list);
    FirstValue(Tokens("[\n" + list));
    assert Tokens("[\n" + list)[1..] == Tokens(list);
    if |scripts| == 0 {
      assert list == "  " + ("]" + tail);
      LeadingBlanks("  ", "]" + tail);
      MarkIsRead("]", tail);
      assert Tokens(list)[1..] == Tokens(tail);
      assert ScriptValues(scripts) == [];
    } else {
      ScriptsAreRead(scripts, tail);
      ScriptsStart(scripts, "  ]" + tail);
    }
  }

  lemma ScriptsStart(scripts: seq<ScriptBinding>, tail: string)
    requires |scripts| > 0
    ensures |Tokens(ScriptsText(scripts, tail))| > 0 && Tokens(ScriptsText(scripts, tail))[0] == ObjectOpen
  {
    hide Tokens, FieldsText;
    var text := ScriptsText(scripts, tail);
    assert text == "    " + text[4..];
    assert text[4] == '{';
    LeadingBlanks("    ", text[4..]);
    FirstToken(text[4..]);
  }

  /** The scripts are read back exactly if they were not misread. */
  function WrittenScripts(scripts: seq<ScriptBinding>): (written: seq<ScriptBinding>)
    ensures |written| == |scripts| && forall i :: 0 <= i < |scripts| ==> written[i] == Written(scripts[i])
  {
    seq(|scripts|, i requires 0 <= i < |scripts| => Written(scripts[i]))
  }

  lemma BindingsOfPrinted(scripts: seq<ScriptBinding>)
    ensures Bindings(ScriptValues(scripts)) == Some(WrittenScripts(scripts))
  {
    hide BindingOf, FieldsOf, FieldValues, Written;
    forall i | 0 <= i < |scripts| ensures BindingOf(FieldValues(FieldsOf(scripts[i]))) == Some(Written(scripts[i])) {
      BindingOfPrinted(scripts[i]);
    }
    BindingsAre(ScriptValues(scripts), WrittenScripts(scripts));
  }

  lemma {:induction false} BindingsAre(items: seq<Value>, scripts: seq<ScriptBinding>)
    requires |items| == |scripts|
    requires forall i :: 0 <= i < |items| ==> items[i].Object? && BindingOf(items[i].fields) == Some(scripts[i])
    ensures Bindings(items) == Some(scripts)
  {
    hide BindingOf;
    if |items| == 0 {
    } else {
      var n := |items| - 1;
      BindingsAre(items[..n], scripts[..n]);
      assert scripts == scripts[..n] + [scripts[n]];
    }
  }

  lemma BindingsMisread(values: seq<Value>, scripts: seq<ScriptBinding>)
    requires ScriptsMisread(values, scripts)
    ensures Bindings(values) != Some(scripts)
  {
    hide BindingOf, FieldsOf, FieldsMisread, Bindings;
    var i :| 0 <= i < |values| && i < |scripts| && ScriptMisread(values[i], scripts[i]);
    BindingMisread(values[i].fields, scripts[i]);
    BindingsAt(values, i);
  }

  function RootValue(m: ScriptManifest): Value {
    Object([Field("version", Number(m.version as real)), Field("scripts", Array(ScriptValues(m.scripts)))])
  }

  /** Is this what reading the printed m makes of it, as far as the strings allow? */
  predicate RootRead(root: Value, m: ScriptManifest) {
    if PlainScripts(m.scripts) then root == RootValue(m)
    else root.Object? && |root.fields| >= 2
         && root.fields[0] == Field("version", Number(m.version as real))
         && root.fields[1].key == "scripts" && root.fields[1].value.Array?
         && ScriptsMisread(root.fields[1].value.items, m.scripts)
  }

  /** How the printed manifest is read. */
  lemma RootIsRead(m: ScriptManifest)
    ensures var r := Parsed(Printed(m)); if r.Some? then RootRead(r.value, m) else !PlainScripts(m.scripts)
  {
    hide Tokens, ReadValue, ScriptsText, PlainScripts, ScriptsMisread;
    var list := "[\n" + ScriptsText(m.scripts, "  ]" + "\n}\n");
    ScriptListIsRead(m.scripts, "\n}\n");
    ClosingIsRead();
    RootTokens(m);
    RootFromTokens(m, Tokens(Printed(m)), Tokens(list));
  }

  lemma ClosingIsRead()
    ensures Tokens("\n}\n") == [ObjectClose]
  {
    assert Tokens("") == [];
    hide Tokens;
    LeadingBlanks("\n", "}\n");
    MarkIsRead("}\n", "");
    assert "}\n" + "" == "}\n" && "\n" + "}\n" == "\n}\n";
  }

  lemma RootTokens(m: ScriptManifest)
    ensures Tokens(Printed(m)) ==
            [ObjectOpen, Text("version"), Colon, Numeral(m.version as real), Comma, Text("scripts"), Colon]
            + Tokens("[\n" + ScriptsText(m.scripts, "  ]" + "\n}\n"))
  {
    hide Tokens, ScriptsText, Decimal, Quoted;
    var list := "[\n" + ScriptsText(m.scripts, "  ]" + "\n}\n");
    var scripts := Quoted("scripts", ": " + list);
    var number := Decimal(m.version) + (",\n  " + scripts);
    var version := Quoted("version", ": " + number);
    assert Printed(m) == "{\n  " + version;
    MarkIsRead("{\n  ", version);
    QuotedIsRead("version", ": " + number);
    MarkIsRead(": ", number);
    DecimalIsRead(m.version, ",\n  " + scripts);
    MarkIsRead(",\n  ", scripts);
    QuotedIsRead("scripts", ": " + list);
    MarkIsRead(": ", list);
  }

  lemma RootFromTokens(m: ScriptManifest, ts: seq<Token>, list: seq<Token>)
    requires ts == [ObjectOpen, Text("version"), Colon, Numeral(m.version as real), Comma, Text("scripts"), Colon]
                   + list
    requires var r := ReadValue(list);
             if PlainScripts(m.scripts) then r == Read(Array(ScriptValues(m.scripts)), [ObjectClose])
             else r.Fail? || (r.value.Array? && ScriptsMisread(r.value.items, m.scripts))
    ensures var r := ReadValue(ts);
            if PlainScripts(m.scripts) then r == Read(RootValue(m), []) else r.Fail? || RootRead(r.value, m)
  {
    hide ReadValue, PlainScripts, ScriptsMisread, ScriptValues;
    FirstValue(ts);
    var members := ts[1..];
    var first := Field("version", Number(m.version as real));
    FirstValue(members[2..]);
    assert ReadMember(members) == Read(first, members[3..]);
    var behind := members[4..];
    assert behind[2..] == list && members[3..][1..] == behind;
    assert ReadMembers(members) == MoreMembers([first], members[3..]);
    var r := ReadValue(list);
    if r.Read? {
      var second := Field("scripts", r.value);
      assert ReadMember(behind) == Read(second, r.rest);
      MoreMembersKeeps([second], r.rest);
      assert ReadMembers(behind) == MoreMembers([second], r.rest);
      if PlainScripts(m.scripts) {
        assert ReadMembers(behind) == Read([second], []);
        assert [first] + [second] == [first, second];
      } else if ReadMembers(behind).Read? {
        assert ReadMembers(members).value == [first] + ReadMembers(behind).value;
      }
    } else {
      assert ReadMembers(behind) == Fail;
    }
  }

  /** The manifest as far as the printer writes it: every tick_hz has six significant digits. */
  function WrittenManifest(m: ScriptManifest): ScriptManifest {
    m.(scripts := WrittenScripts(m.scripts))
  }

  /** What reading makes of a printed manifest. */
  lemma PrintedIsRead(m: ScriptManifest)
    ensures PlainScripts(m.scripts) ==> ReadManifest(Printed(m)) == Some(WrittenManifest(m))
    ensures !PlainScripts(m.scripts) ==> ReadManifest(Printed(m)) != Some(m)
  {
    hide Parsed, Printed, BindingOf, Bindings, ScriptValues, PlainScripts, ScriptsMisread, Written;
    RootIsRead(m);
    assert "version"[0] == 'v' && "scripts"[0] == 's';
    if PlainScripts(m.scripts) {
      BindingsOfPrinted(m.scripts);
      var root := Parsed(Printed(m)).value;
      assert root == RootValue(m) && root.fields[1..][0].key == "scripts";
      assert Lookup(root.fields, "version") == Some(Number(m.version as real));
      assert Lookup(root.fields, "scripts") == Some(Array(ScriptValues(m.scripts)));
      assert ToUint32(m.version as real) == m.version;
    } else if Parsed(Printed(m)).Some? {
      var root := Parsed(Printed(m)).value;
      assert root.fields[1..][0] == root.fields[1];
      assert Lookup(root.fields, "scripts") == Some(root.fields[1].value);
      BindingsMisread(root.fields[1].value.items, m.scripts);
    }
  }

  /**
   * Reading a printed manifest gives it back exactly if no string of it contains a quote or a backslash,
   * since the printer does not escape and the reader does unescape, and every tick_hz has at most six
   * significant digits, since the printer writes no more.
   */
  lemma RoundTripIff(m: ScriptManifest)
    ensures ReadManifest(Printed(m)) == Some(m)
            <==> PlainScripts(m.scripts) && forall b :: b in m.scripts ==> Short(b.tickHz)
  {
    PrintedIsRead(m);
    hide ReadManifest, Printed, PlainScripts, Rounded, Short;
    forall b | b in m.scripts ensures Written(b) == b <==> Short(b.tickHz) {
      RoundedIffShort(b.tickHz);
    }
    if forall b :: b in m.scripts ==> Short(b.tickHz) {
      assert WrittenScripts(m.scripts) == m.scripts;
    } else {
      var b :| b in m.scripts && !Short(b.tickHz);
      var i :| 0 <= i < |m.scripts| && m.scripts[i] == b;
      assert WrittenScripts(m.scripts)[i] != m.scripts[i];
    }
  }

  /** A tick_hz with a seventh digit, which is lost. */
  lemma SeventhDigitIsLost()
    ensures var b := ScriptBinding("n", "p", Quest, [QuestEvent], [], 0.1234567, [], true);
            ReadManifest(Printed(ScriptManifest(1, [b])))
            == Some(ScriptManifest(1, [b.(tickHz := 0.123457)]))
  {
    var b := ScriptBinding("n", "p", Quest, [QuestEvent], [], 0.1234567, [], true);
    var m := ScriptManifest(1, [b]);
    RoundedUp();
    assert Plain("n") && Plain("p");
    assert PlainScripts(m.scripts);
    assert WrittenScripts(m.scripts) == [b.(tickHz := 0.123457)];
    hide ReadManifest, Printed;
    PrintedIsRead(m);
  }

  /** A binding that cannot be read back: its name is one backslash. */
  lemma BackslashIsLost()
    ensures var b := ScriptBinding("\\", "p", Quest, [QuestEvent], [], 0.5, [], true);
            ReadManifest(Printed(ScriptManifest(1, [b]))) != Some(ScriptManifest(1, [b]))
  {
    var b := ScriptBinding("\\", "p", Quest, [QuestEvent], [], 0.5, [], true);
    assert b.name[0] == '\\' && !Plain(b.name);
    assert !PlainBinding([b][0]);
    hide ReadManifest, Printed;
    PrintedIsRead(ScriptManifest(1, [b]));
  }

  /** Blanks between the tokens of a manifest text, at any places, do not change what is read. */
  lemma BlanksKeepManifest(text: string, gaps: seq<Gap>)
    requires GapsOk(text, gaps)
    ensures ReadManifest(Spread(text, gaps)) == ReadManifest(text)
  {
    BlanksKeepMeaning(text, gaps);
  }

  // ----- the printing program -----

  lemma Regroup(a: string, b: string, c: string)
    ensures a + b + c == a + (b + c)
  {
  }

  /** Appends a quoted string; `tail` is what the caller goes on to write. */
  method AppendQuoted(out: string, s: string, ghost tail: string) returns (r: string)
    ensures r + tail == out + Quoted(s, tail)
  {
    r := out + "\"" + s + "\"";
    assert r + tail == out + ("\"" + (s + ("\"" + tail)));
  }

  method AppendList(out: string, xs: seq<string>, ghost tail: string) returns (r: string)
    ensures r + tail == out + ListText(xs, tail)
  {
    hide Quoted;
    r := out;
    for k := 0 to |xs|
      invariant r + Separated(xs, k, tail) == out + ListText(xs, tail)
    {
      if k > 0 {
        Regroup(r, ", ", ListText(xs[k..], tail));
        r := r + ", ";
      }
      assert xs[k..][1..] == xs[k + 1..];
      assert ListText(xs[k..], tail) == Quoted(xs[k], Separated(xs, k + 1, tail));
      r := AppendQuoted(r, xs[k], Separated(xs, k + 1, tail));
    }
  }

  /** What remains to be written of a list before its element k. */
  ghost function Separated(xs: seq<string>, k: nat, tail: string): string
    requires k <= |xs|
  {
    (if 0 < k < |xs| then ", " else "") + ListText(xs[k..], tail)
  }

  method AppendItem(out: string, item: Item, ghost tail: string) returns (r: string)
    ensures r + tail == out + ItemText(item, tail)
  {
    hide ListText, Quoted, Decimal;
    match item {
      case Str(s) => r := AppendQuoted(out, s, tail);
      case Strs(xs) => {
        Regroup(out, "[", ListText(xs, "]" + tail));
        r := AppendList(out + "[", xs, "]" + tail);
        Regroup(r, "]", tail);
        r := r + "]";
      }
      case Amount(x) => {
        r := out + Streamed(x);
        Regroup(out, Streamed(x), tail);
      }
      case Switch(on) => {
        r := out + (if on then "true" else "false");
        Regroup(out, if on then "true" else "false", tail);
      }
    }
  }

  method AppendFields(out: string, fields: Fields, ghost tail: string) returns (r: string)
    ensures r + tail == out + FieldsText(fields, tail)
  {
    hide ItemText, Quoted;
    r := out;
    var fs := fields;
    while fs.More?
      invariant r + FieldsText(fs, tail) == out + FieldsText(fields, tail)
      decreases fs
    {
      var sep := if fs.next.Last? then "" else ", ";
      ghost var behind := sep + FieldsText(fs.next, tail);
      ghost var item := ItemText(fs.item, behind);
      r := AppendQuoted(r, fs.key, ": " + item);
      Regroup(r, ": ", item);
      r := AppendItem(r + ": ", fs.item, behind);
      Regroup(r, sep, FieldsText(fs.next, tail));
      r := r + sep;
      fs := fs.next;
    }
  }

  method ToJson(m: ScriptManifest) returns (out: string)
    ensures out == Printed(m)
  {
    hide FieldsText, Quoted, Decimal, FieldsOf;
    ghost var end := "  ]" + "\n}\n";
    ghost var list := "[\n" + ScriptsText(m.scripts, end);
    ghost var scripts := Quoted("scripts", ": " + list);
    ghost var number := Decimal(m.version) + (",\n  " + scripts);
    out := AppendQuoted("{\n  ", "version", ": " + number);
    Regroup(out, ": ", number);
    out := out + ": ";
    Regroup(out, Decimal(m.version), ",\n  " + scripts);
    out := out + Decimal(m.version);
    Regroup(out, ",\n  ", scripts);
    out := out + ",\n  ";
    out := AppendQuoted(out, "scripts", ": " + list);
    Regroup(out, ": ", list);
    out := out + ": ";
    Regroup(out, "[\n", ScriptsText(m.scripts, end));
    out := out + "[\n";
    for i := 0 to |m.scripts|
      invariant out + ScriptsText(m.scripts[i..], end) == Printed(m)
    {
      out := AppendScript(out, m.scripts[i..], end);
    }
    out := out + "  ]\n}\n";
    assert "  ]\n}\n" == end;
  }

  /** One line of the list of scripts. */
  method AppendScript(out: string, scripts: seq<ScriptBinding>, ghost tail: string) returns (r: string)
    requires |scripts| > 0
    ensures r + ScriptsText(scripts[1..], tail) == out + ScriptsText(scripts, tail)
  {
    hide FieldsText, FieldsOf;
    ghost var rest := ScriptsText(scripts[1..], tail);
    var sep := if |scripts| == 1 then "" else ",";
    ghost var behind := sep + ("\n" + rest);
    ghost var fields := FieldsText(FieldsOf(scripts[0]), " }" + behind);
    Regroup(out, "    { ", fields);
    r := AppendFields(out + "    { ", FieldsOf(scripts[0]), " }" + behind);
    Regroup(r, " }", behind);
    r := r + " }";
    Regroup(r, sep, "\n" + rest);
    r := r + sep;
    Regroup(r, "\n", rest);
    r := r + "\n";
  }
}
