/** The inventory of schema properties in an OpenAPI or JSON Schema document (src/compat/src/openapi.rs). */
module SchemaInventory {
  import opened Text
  import opened JsonPointer
  import opened SchemaSummary
  import opened Sorting

  /** What the inventory records of one property. */
  datatype Field = Field(pointer: string, name: string, required: bool, summary: Summary)

  const PROPERTIES := "properties"

  // ----- Reference definition: the properties a document declares -----

  /** The members of the object at `site`, and those of its `properties` object. */
  ghost predicate Declares(v: Value, site: seq<string>, members: seq<Member>, properties: seq<Member>) {
    Walk(v, site) == Some(Object(members)) && Get(members, "properties") == Some(Object(properties))
  }

  /** The object at `site` declares property `name`. */
  ghost predicate IsProperty(v: Value, site: seq<string>, name: string) {
    exists members, properties :: Declares(v, site, members, properties) && Get(properties, name).Some?
  }

  predicate IsRequired(members: seq<Member>, name: string) {
    match Get(members, "required")
    case Some(Array(items)) => exists i | 0 <= i < |items| :: items[i] == Str(name)
    case _ => false
  }

  /** The object's `required` array holds the name. */
  ghost predicate Requires(members: seq<Member>, name: string) {
    exists items :: Get(members, "required") == Some(Array(items)) && Str(name) in items
  }

  function PropertyTokens(site: seq<string>, name: string): seq<string> {
    site + [PROPERTIES, name]
  }

  // ----- What the traversal finds, in order -----

  datatype Found = Found(site: seq<string>, name: string, required: bool, schema: Value)

  function FoundIn(v: Value, path: seq<string>): seq<Found>
    decreases v, 1, 0
  {
    match v
    case Object(_) => OwnFound(v.members, path) + FoundInMembers(v, 0, path)
    case Array(_) => FoundInItems(v, 0, path)
    case _ => []
  }

  function OwnFound(members: seq<Member>, path: seq<string>): seq<Found> {
    match Get(members, PROPERTIES)
    case Some(Object(properties)) =>
      seq(|properties|, i requires 0 <= i < |properties| =>
        Found(path, properties[i].key, IsRequired(members, properties[i].key), properties[i].value))
    case _ => []
  }

  function FoundInMembers(v: Value, k: nat, path: seq<string>): seq<Found>
    requires v.Object? && k <= |v.members|
    decreases v, 0, |v.members| - k
  {
    if k == |v.members| then []
    else FoundIn(v.members[k].value, path + [v.members[k].key]) + FoundInMembers(v, k + 1, path)
  }

  function FoundInItems(v: Value, k: nat, path: seq<string>): seq<Found>
    requires v.Array? && k <= |v.items|
    decreases v, 0, |v.items| - k
  {
    if k == |v.items| then []
    else FoundIn(v.items[k], path + [Decimal(k)]) + FoundInItems(v, k + 1, path)
  }

  function ToFields(found: seq<Found>): seq<Field> {
    seq(|found|, i requires 0 <= i < |found| => FieldOf(found[i]))
  }

  function FieldOf(f: Found): Field {
    Field(Render(PropertyTokens(f.site, f.name)), f.name, f.required, Summarize(f.schema))
  }

  // ----- The traversal -----

  /** `collect_schema_fields` pushing into the caller's vector. */
  class Collector {
    var fields: seq<Field>

    constructor ()
      ensures fields == []
    {
      fields := [];
    }

    method Collect(value: Value, pointer: string, ghost path: seq<string>)
      requires pointer == Render(path)
      modifies this
      ensures fields == old(fields) + ToFields(FoundIn(value, path))
      decreases value, 1
    {
      match value {
        case Object(members) =>
          var properties := Get(members, PROPERTIES);
          if properties.Some? && properties.value.Object? {
            PushProperties(members, properties.value.members, pointer);
            OwnFields(members, properties.value.members, path);
          }
          assert fields == old(fields) + ToFields(OwnFound(members, path));
          CollectMembers(value, pointer, path);
          AppendFound(old(fields), OwnFound(members, path), FoundInMembers(value, 0, path));
        case Array(items) =>
          CollectItems(value, pointer, path);
        case _ =>
      }
    }

    method CollectMembers(value: Value, pointer: string, ghost path: seq<string>)
      requires value.Object? && pointer == Render(path)
      modifies this
      ensures fields == old(fields) + ToFields(FoundInMembers(value, 0, path))
      decreases value, 0
    {
      for k := 0 to |value.members|
        invariant fields + ToFields(FoundInMembers(value, k, path)) ==
          old(fields) + ToFields(FoundInMembers(value, 0, path))
      {
        var Member(key, child) := value.members[k];
        RenderAppend(path, key);
        AppendFound(fields, FoundIn(child, path + [key]), FoundInMembers(value, k + 1, path));
        Collect(child, pointer + "/" + Escape(key), path + [key]);
      }
    }

    method CollectItems(value: Value, pointer: string, ghost path: seq<string>)
      requires value.Array? && pointer == Render(path)
      modifies this
      ensures fields == old(fields) + ToFields(FoundInItems(value, 0, path))
      decreases value, 0
    {
      for k := 0 to |value.items|
        invariant fields + ToFields(FoundInItems(value, k, path)) ==
          old(fields) + ToFields(FoundInItems(value, 0, path))
      {
        IndexPointer(path, k);
        AppendFound(fields, FoundIn(value.items[k], path + [Decimal(k)]), FoundInItems(value, k + 1, path));
        Collect(value.items[k], pointer + "/" + Decimal(k), path + [Decimal(k)]);
      }
    }

    method PushProperties(members: seq<Member>, properties: seq<Member>, pointer: string)
      modifies this
      ensures fields == old(fields) + FieldsFor(members, properties, pointer)
      ensures AreFieldsOf(fields[|old(fields)|..], members, properties, pointer)
    {
      ghost var all := FieldsFor(members, properties, pointer);
      for i := 0 to |properties|
        invariant fields == old(fields) + all[..i]
      {
        assert all[..i + 1] == all[..i] + [all[i]];
        fields := fields + [FieldFor(members, properties[i], pointer)];
      }
      assert all[..|properties|] == all;
      PushedAreFields(old(fields), members, properties, pointer);
    }
  }

  /** The field pushed for a property. */
  function FieldFor(members: seq<Member>, property: Member, pointer: string): Field {
    Field(pointer + "/" + PROPERTIES + "/" + Escape(property.key), property.key, IsRequired(members, property.key),
      Summarize(property.value))
  }

  function FieldsFor(members: seq<Member>, properties: seq<Member>, pointer: string): seq<Field> {
    seq(|properties|, i requires 0 <= i < |properties| => FieldFor(members, properties[i], pointer))
  }

  lemma FoundField(members: seq<Member>, property: Member, path: seq<string>)
    ensures FieldOf(Found(path, property.key, IsRequired(members, property.key), property.value)) ==
      FieldFor(members, property, Render(path))
  {
    WordPointer(path, PROPERTIES, property.key);
  }

  lemma OwnFields(members: seq<Member>, properties: seq<Member>, path: seq<string>)
    requires Get(members, PROPERTIES) == Some(Object(properties))
    ensures FieldsFor(members, properties, Render(path)) == ToFields(OwnFound(members, path))
  {
    var own := OwnFound(members, path);
    forall i | 0 <= i < |properties|
      ensures FieldOf(own[i]) == FieldFor(members, properties[i], Render(path))
    {
      FoundField(members, properties[i], path);
    }
  }

  /** What is recorded of one declared property. */
  ghost predicate IsFieldOf(field: Field, members: seq<Member>, property: Member, pointer: string) {
    && field.name == property.key && field.pointer == pointer + "/" + "properties" + "/" + Escape(property.key)
    && (field.required <==> Requires(members, property.key))
    && (WellFormed(property.value) ==> Summarizes(field.summary, property.value))
  }

  ghost predicate AreFieldsOf(fields: seq<Field>, members: seq<Member>, properties: seq<Member>, pointer: string) {
    && |fields| == |properties|
    && forall i | 0 <= i < |properties| :: IsFieldOf(fields[i], members, properties[i], pointer)
  }

  lemma FieldForIs(members: seq<Member>, property: Member, pointer: string)
    ensures IsFieldOf(FieldFor(members, property, pointer), members, property, pointer)
  {
    if WellFormed(property.value) {
      SummarizeSummarizes(property.value);
    }
  }

  lemma AllAreFields(fields: seq<Field>, members: seq<Member>, properties: seq<Member>, pointer: string)
    requires |fields| == |properties|
    requires forall i | 0 <= i < |fields| :: fields[i] == FieldFor(members, properties[i], pointer)
    ensures AreFieldsOf(fields, members, properties, pointer)
  {
    forall i | 0 <= i < |fields|
      ensures IsFieldOf(fields[i], members, properties[i], pointer)
    {
      FieldForIs(members, properties[i], pointer);
    }
  }

  lemma PushedAreFields(before: seq<Field>, members: seq<Member>, properties: seq<Member>, pointer: string)
    ensures AreFieldsOf((before + FieldsFor(members, properties, pointer))[|before|..], members, properties, pointer)
  {
    var all := FieldsFor(members, properties, pointer);
    AllAreFields(all, members, properties, pointer);
    assert (before + all)[|before|..] == all;
  }

  lemma AppendFound(fields: seq<Field>, a: seq<Found>, b: seq<Found>)
    ensures fields + ToFields(a + b) == (fields + ToFields(a)) + ToFields(b)
  {
    FieldsConcat(a, b);
    assert fields + (ToFields(a) + ToFields(b)) == (fields + ToFields(a)) + ToFields(b);
  }

  lemma FieldsConcat(a: seq<Found>, b: seq<Found>)
    ensures ToFields(a + b) == ToFields(a) + ToFields(b)
  {
    var all, joined := ToFields(a + b), ToFields(a) + ToFields(b);
    forall i | 0 <= i < |all|
      ensures all[i] == joined[i]
    {
      assert (a + b)[i] == if i < |a| then a[i] else b[i - |a|];
    }
  }

  lemma IndexPointer(path: seq<string>, k: nat)
    ensures Render(path + [Decimal(k)]) == Render(path) + "/" + Decimal(k)
  {
    DecimalDigits(k);
    EscapeDigits(Decimal(k));
    RenderAppend(path, Decimal(k));
  }

  lemma WordPointer(path: seq<string>, word: string, name: string)
    requires '~' !in word && '/' !in word
    ensures Render(path + [word, name]) == Render(path) + "/" + word + "/" + Escape(name)
  {
    RenderAppend(path, word);
    RenderAppend(path + [word], name);
    assert path + [word] + [name] == path + [word, name];
    PlainWord(word);
  }

  lemma {:induction false} PlainWord(s: string)
    requires '~' !in s && '/' !in s
    ensures Escape(s) == s
  {
    if s != "" {
      EscapeByChar(s);
      PlainWord(s[1..]);
    }
  }

  // ----- Everything found is a declared property, found once -----

  /** `f`, found below `path`, is a property declared in `v`. */
  ghost predicate Genuine(v: Value, path: seq<string>, f: Found) {
    && path <= f.site
    && exists members, properties ::
         && Declares(v, f.site[|path|..], members, properties)
         && Get(properties, f.name) == Some(f.schema)
         && f.required == IsRequired(members, f.name)
  }

  predicate Distinct(found: seq<Found>) {
    forall i, j | 0 <= i < j < |found| :: found[i].site != found[j].site || found[i].name != found[j].name
  }

  /** `f` lies strictly below `path`, under one of the given tokens. */
  ghost predicate Under(f: Found, path: seq<string>, tokens: seq<string>) {
    path <= f.site && |path| < |f.site| && f.site[|path|] in tokens
  }

  function Keys(members: seq<Member>): seq<string> {
    seq(|members|, i requires 0 <= i < |members| => members[i].key)
  }

  function Indexes(k: nat, n: nat): seq<string>
    requires k <= n
  {
    seq(n - k, i requires 0 <= i < n - k => Decimal(k + i))
  }

  lemma FoundInChild(v: Value, token: string, child: Value, path: seq<string>, f: Found)
    requires Child(v, token) == Some(child) && Genuine(child, path + [token], f)
    ensures Genuine(v, path, f)
    ensures path <= f.site && |path| < |f.site| && f.site[|path|] == token
  {
    var rest := f.site[|path|..];
    assert f.site[..|path| + 1] == path + [token];
    assert f.site[|path|] == (path + [token])[|path|];
    assert f.site[..|path|] == (path + [token])[..|path|] == path;
    assert rest[0] == token && rest[1..] == f.site[|path + [token]|..];
  }

  lemma OwnFoundGenuine(v: Value, path: seq<string>)
    requires v.Object? && WellFormed(v)
    ensures forall f | f in OwnFound(v.members, path) :: Genuine(v, path, f) && f.site == path
    ensures Distinct(OwnFound(v.members, path))
  {
    var own := OwnFound(v.members, path);
    if own != [] {
      var properties := Get(v.members, PROPERTIES).value.members;
      var k := GetIsMember(v.members, PROPERTIES);
      assert WellFormed(v.members[k].value);
      forall i | 0 <= i < |own|
        ensures Genuine(v, path, own[i])
      {
        GetFinds(properties, i);
        assert own[i].site[|path|..] == [];
        assert Declares(v, [], v.members, properties);
      }
    }
  }

  /** Joining what one child yields with what its later siblings yield. */
  lemma JoinDistinct(first: seq<Found>, later: seq<Found>, path: seq<string>, token: string, tokens: seq<string>)
    requires Distinct(first) && Distinct(later)
    requires forall f | f in first :: Under(f, path, [token])
    requires forall f | f in later :: Under(f, path, tokens)
    requires token !in tokens
    ensures Distinct(first + later)
  {
    var all := first + later;
    forall i, j | 0 <= i < j < |all|
      ensures all[i].site != all[j].site || all[i].name != all[j].name
    {
      if i < |first| <= j {
        assert all[i] in first && all[j] in later;
        assert all[i].site[|path|] != all[j].site[|path|];
      }
    }
  }

  lemma {:induction false} FoundIsGenuine(v: Value, path: seq<string>)
    requires WellFormed(v)
    ensures forall f | f in FoundIn(v, path) :: Genuine(v, path, f)
    ensures Distinct(FoundIn(v, path))
    decreases v, 1, 0
  {
    match v {
      case Object(members) =>
        OwnFoundGenuine(v, path);
        MembersAreGenuine(v, 0, path);
        var own, below := OwnFound(members, path), FoundInMembers(v, 0, path);
        var all: seq<Found> := own + below;
        forall i, j | 0 <= i < j < |all|
          ensures all[i].site != all[j].site || all[i].name != all[j].name
        {
          if i < |own| <= j {
            assert all[i] in own && all[j] in below;
          }
        }
      case Array(items) =>
        ItemsAreGenuine(v, 0, path);
      case _ =>
    }
  }

  lemma {:induction false} MembersAreGenuine(v: Value, k: nat, path: seq<string>)
    requires v.Object? && WellFormed(v) && k <= |v.members|
    ensures forall f | f in FoundInMembers(v, k, path) :: Genuine(v, path, f) && Under(f, path, Keys(v.members[k..]))
    ensures Distinct(FoundInMembers(v, k, path))
    decreases v, 0, |v.members| - k
  {
    if k < |v.members| {
      var Member(key, child) := v.members[k];
      var first, later := FoundIn(child, path + [key]), FoundInMembers(v, k + 1, path);
      FoundIsGenuine(child, path + [key]);
      MembersAreGenuine(v, k + 1, path);
      GetFinds(v.members, k);
      forall f | f in first
        ensures Genuine(v, path, f) && Under(f, path, [key])
      {
        FoundInChild(v, key, child, path, f);
      }
      assert Keys(v.members[k..]) == [key] + Keys(v.members[k + 1..]);
      JoinDistinct(first, later, path, key, Keys(v.members[k + 1..]));
    }
  }

  lemma {:induction false} ItemsAreGenuine(v: Value, k: nat, path: seq<string>)
    requires v.Array? && WellFormed(v) && k <= |v.items|
    ensures forall f | f in FoundInItems(v, k, path) :: Genuine(v, path, f) && Under(f, path, Indexes(k, |v.items|))
    ensures Distinct(FoundInItems(v, k, path))
    decreases v, 0, |v.items| - k
  {
    if k < |v.items| {
      var token, child := Decimal(k), v.items[k];
      var first, later := FoundIn(child, path + [token]), FoundInItems(v, k + 1, path);
      FoundIsGenuine(child, path + [token]);
      ItemsAreGenuine(v, k + 1, path);
      ArrayIndexDecimal(k);
      forall f | f in first
        ensures Genuine(v, path, f) && Under(f, path, [token])
      {
        FoundInChild(v, token, child, path, f);
      }
      var others := Indexes(k + 1, |v.items|);
      assert Indexes(k, |v.items|) == [token] + others;
      forall i | 0 <= i < |others|
        ensures others[i] != token
      {
        ArrayIndexDecimal(k + 1 + i);
      }
      JoinDistinct(first, later, path, token, others);
    }
  }

  // ----- Every declared property is found -----

  lemma {:induction false} ChildIsSearched(v: Value, k: nat, m: nat, path: seq<string>, f: Found)
    requires v.Object? && k <= m < |v.members|
    requires f in FoundIn(v.members[m].value, path + [v.members[m].key])
    ensures f in FoundInMembers(v, k, path)
    decreases m - k
  {
    var first, rest := FoundIn(v.members[k].value, path + [v.members[k].key]), FoundInMembers(v, k + 1, path);
    assert FoundInMembers(v, k, path) == first + rest;
    if k < m {
      ChildIsSearched(v, k + 1, m, path, f);
      assert f in rest;
    } else {
      assert f in first;
    }
  }

  lemma {:induction false} ItemIsSearched(v: Value, k: nat, m: nat, path: seq<string>, f: Found)
    requires v.Array? && k <= m < |v.items|
    requires f in FoundIn(v.items[m], path + [Decimal(m)])
    ensures f in FoundInItems(v, k, path)
    decreases m - k
  {
    var first, rest := FoundIn(v.items[k], path + [Decimal(k)]), FoundInItems(v, k + 1, path);
    assert FoundInItems(v, k, path) == first + rest;
    if k < m {
      ItemIsSearched(v, k + 1, m, path, f);
      assert f in rest;
    } else {
      assert f in first;
    }
  }

  lemma {:induction false} PropertyIsFound(v: Value, path: seq<string>, site: seq<string>, name: string)
    returns (f: Found)
    requires IsProperty(v, site, name)
    ensures f in FoundIn(v, path) && f.site == path + site && f.name == name
    decreases site
  {
    var members, properties :| Declares(v, site, members, properties) && Get(properties, name).Some?;
    if site == [] {
      var i := GetIsMember(properties, name);
      f := OwnFound(members, path)[i];
      assert f in FoundIn(v, path);
    } else {
      var token := site[0];
      var child := Child(v, token).value;
      assert Declares(child, site[1..], members, properties);
      f := PropertyIsFound(child, path + [token], site[1..], name);
      assert path + [token] + site[1..] == path + site;
      if v.Object? {
        var m := GetIsMember(v.members, token);
        ChildIsSearched(v, 0, m, path, f);
      } else {
        IndexSpelling(token);
        ItemIsSearched(v, 0, ArrayIndex(token).value, path, f);
      }
    }
  }

  // ----- The inventory -----

  /** A field describes a property: its pointer evaluates to that property's schema, which it summarizes. */
  ghost predicate Describes(document: Value, field: Field, site: seq<string>) {
    exists members, properties ::
      && Declares(document, site, members, properties)
      && Get(properties, field.name).Some?
      && field.pointer == Render(PropertyTokens(site, field.name))
      && Evaluate(document, field.pointer) == Get(properties, field.name)
      && (field.required <==> Requires(members, field.name))
      && field.summary == Summarize(Get(properties, field.name).value)
      && Summarizes(field.summary, Get(properties, field.name).value)
  }

  predicate PointersDistinct(fields: seq<Field>) {
    forall i, j | 0 <= i < j < |fields| :: fields[i].pointer != fields[j].pointer
  }

  /** `Vec::dedup`: drop an element equal to its predecessor. */
  function Dedup(fields: seq<Field>): seq<Field> {
    if |fields| < 2 then fields
    else if fields[0] == fields[1] then Dedup(fields[1..])
    else [fields[0]] + Dedup(fields[1..])
  }

  lemma {:induction false} WalkAppend(v: Value, a: seq<string>, b: seq<string>)
    ensures Walk(v, a + b) == if Walk(v, a).Some? then Walk(Walk(v, a).value, b) else None
    decreases a
  {
    if a == [] {
      assert a + b == b;
    } else {
      assert (a + b)[0] == a[0] && (a + b)[1..] == a[1..] + b;
      if Child(v, a[0]).Some? {
        WalkAppend(Child(v, a[0]).value, a[1..], b);
      }
    }
  }

  lemma EvaluateBelow(document: Value, site: seq<string>, owner: Value, a: string, b: string)
    requires Walk(document, site) == Some(owner) && Child(owner, a).Some?
    ensures Evaluate(document, Render(site + [a, b])) == Child(Child(owner, a).value, b)
  {
    ParseRender(site + [a, b]);
    WalkAppend(document, site, [a, b]);
    assert [a, b][1..] == [b] && [b][1..] == [];
    assert Walk(owner, [a, b]) == Walk(Child(owner, a).value, [b]);
  }

  lemma PropertyEvaluates(document: Value, site: seq<string>, members: seq<Member>, properties: seq<Member>,
    name: string)
    requires Declares(document, site, members, properties)
    ensures Evaluate(document, Render(PropertyTokens(site, name))) == Get(properties, name)
  {
    EvaluateBelow(document, site, Object(members), PROPERTIES, name);
  }

  lemma FieldDescribes(document: Value, i: nat)
    requires WellFormed(document) && i < |FoundIn(document, [])|
    ensures Describes(document, ToFields(FoundIn(document, []))[i], FoundIn(document, [])[i].site)
  {
    FoundIsGenuine(document, []);
    var f := FoundIn(document, [])[i];
    assert f in FoundIn(document, []);
    assert f.site[0..] == f.site;
    var members, properties :| Declares(document, f.site, members, properties)
      && Get(properties, f.name) == Some(f.schema) && f.required == IsRequired(members, f.name);
    PropertyEvaluates(document, f.site, members, properties, f.name);
    SchemaIsWellFormed(document, f.site, members, properties, f.name);
    SummarizeSummarizes(f.schema);
  }

  lemma {:induction false} WalkKeepsWellFormed(v: Value, tokens: seq<string>)
    requires WellFormed(v) && Walk(v, tokens).Some?
    ensures WellFormed(Walk(v, tokens).value)
    decreases tokens
  {
    if tokens != [] {
      if v.Object? {
        var k := GetIsMember(v.members, tokens[0]);
      }
      WalkKeepsWellFormed(Child(v, tokens[0]).value, tokens[1..]);
    }
  }

  lemma SchemaIsWellFormed(document: Value, site: seq<string>, members: seq<Member>, properties: seq<Member>,
    name: string)
    requires WellFormed(document) && Declares(document, site, members, properties) && Get(properties, name).Some?
    ensures WellFormed(Get(properties, name).value)
  {
    WalkKeepsWellFormed(document, site);
    var k := GetIsMember(members, "properties");
    var i := GetIsMember(properties, name);
    assert WellFormed(members[k].value);
  }

  lemma FieldPointersDistinct(document: Value)
    requires WellFormed(document)
    ensures PointersDistinct(ToFields(FoundIn(document, [])))
  {
    FoundIsGenuine(document, []);
    var found := FoundIn(document, []);
    forall i, j | 0 <= i < j < |found|
      ensures FieldOf(found[i]).pointer != FieldOf(found[j]).pointer
    {
      var a, b := PropertyTokens(found[i].site, found[i].name), PropertyTokens(found[j].site, found[j].name);
      assert a[|a| - 1] == found[i].name && a[..|a| - 2] == found[i].site;
      assert b[|b| - 1] == found[j].name && b[..|b| - 2] == found[j].site;
      ParseRender(a);
      ParseRender(b);
    }
  }

  lemma {:induction false} DedupKeepsAll(fields: seq<Field>)
    requires PointersDistinct(fields)
    ensures Dedup(fields) == fields
  {
    if |fields| >= 2 {
      assert fields[0].pointer != fields[1].pointer;
      DedupKeepsAll(fields[1..]);
    }
  }

  ghost predicate Described(document: Value, field: Field) {
    exists site :: Describes(document, field, site)
  }

  ghost predicate Sound(document: Value, fields: seq<Field>) {
    forall field | field in fields :: Described(document, field)
  }

  predicate Lists(fields: seq<Field>, name: string, pointer: string) {
    exists field | field in fields :: field.name == name && field.pointer == pointer
  }

  ghost predicate Complete(document: Value, fields: seq<Field>) {
    forall site, name | IsProperty(document, site, name) :: Lists(fields, name, Render(PropertyTokens(site, name)))
  }

  lemma FieldsAreSound(document: Value)
    requires WellFormed(document)
    ensures Sound(document, ToFields(FoundIn(document, [])))
  {
    var fields := ToFields(FoundIn(document, []));
    forall field | field in fields
      ensures Described(document, field)
    {
      var i :| 0 <= i < |fields| && fields[i] == field;
      FieldDescribes(document, i);
    }
  }

  lemma FieldsAreComplete(document: Value)
    ensures Complete(document, ToFields(FoundIn(document, [])))
  {
    var found := FoundIn(document, []);
    var fields := ToFields(found);
    forall site, name | IsProperty(document, site, name)
      ensures Lists(fields, name, Render(PropertyTokens(site, name)))
    {
      var f := PropertyIsFound(document, [], site, name);
      var i :| 0 <= i < |found| && found[i] == f;
      assert [] + site == site;
      assert fields[i] in fields && fields[i].name == name;
    }
  }

  // ----- The sort -----

  /** Strictly by pointer, which decides the order of fields whose pointers differ. */
  predicate Ordered(fields: seq<Field>) {
    forall i, j | 0 <= i < j < |fields| ::
      Leq(fields[i].pointer, fields[j].pointer) && fields[i].pointer != fields[j].pointer
  }

  predicate ByPointer(a: Field, b: Field) {
    Leq(a.pointer, b.pointer)
  }

  lemma PointersAreOrdered()
    ensures IsOrder(ByPointer)
  {
    forall a: Field, b: Field
      ensures ByPointer(a, b) || ByPointer(b, a)
    {
      LeqTotal(a.pointer, b.pointer);
    }
    forall a: Field, b: Field, c: Field | ByPointer(a, b) && ByPointer(b, c)
      ensures ByPointer(a, c)
    {
      LeqTransitive(a.pointer, b.pointer, c.pointer);
    }
  }

  /** The sort keeps the fields and orders them. */
  lemma SortOrders(fields: seq<Field>)
    requires PointersDistinct(fields)
    ensures Ordered(SortBy(ByPointer, fields)) && multiset(SortBy(ByPointer, fields)) == multiset(fields)
  {
    var sorted := SortBy(ByPointer, fields);
    PointersAreOrdered();
    SortSorts(ByPointer, fields);
    PermutationStaysDistinct((f: Field) => f.pointer, fields, sorted);
    forall i, j | 0 <= i < j < |sorted|
      ensures Leq(sorted[i].pointer, sorted[j].pointer) && sorted[i].pointer != sorted[j].pointer
    {
      assert ByPointer(sorted[i], sorted[j]);
    }
  }

  /**
   Collect a document's inventory, sort it and drop duplicates. It holds each declared property
   exactly once and nothing else, in the order of the pointers; `dedup` has nothing to remove.
   */
  method Inventory(document: Value) returns (fields: seq<Field>)
    requires WellFormed(document)
    ensures Sound(document, fields) && Complete(document, fields) && Ordered(fields)
    ensures |fields| == |FoundIn(document, [])|
  {
    var collector := new Collector();
    collector.Collect(document, "", []);
    ghost var found := ToFields(FoundIn(document, []));
    assert collector.fields == found;
    FieldPointersDistinct(document);
    SortOrders(found);
    fields := SortBy(ByPointer, collector.fields);
    DedupKeepsAll(fields);
    fields := Dedup(fields);
    FieldsAreSound(document);
    FieldsAreComplete(document);
    assert forall f :: f in fields <==> f in multiset(fields);
    assert forall f :: f in found <==> f in multiset(found);
    assert |multiset(fields)| == |multiset(found)|;
    forall site, name | IsProperty(document, site, name)
      ensures Lists(fields, name, Render(PropertyTokens(site, name)))
    {
      assert Lists(found, name, Render(PropertyTokens(site, name)));
    }
  }
}
