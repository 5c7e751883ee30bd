/** What the inventory records of a property's schema (src/compat/src/openapi.rs). */
module SchemaSummary {
  import opened Text
  import opened JsonPointer

  datatype Summary = Summary(fieldType: Option<string>, format: Option<string>, reference: Option<string>)

  const REF := "$ref"

  /** `Value::get` with a key. */
  function Lookup(v: Value, key: string): Option<Value> {
    if v.Object? then Get(v.members, key) else None
  }

  /** `value_string`. */
  function ValueString(value: Option<Value>): Option<string> {
    match value
    case Some(Str(s)) => Some(s)
    case Some(Number(text)) => Some(text)
    case _ => None
  }

  function Strings(items: seq<Value>): seq<string> {
    if items == [] then []
    else
      var last, front := items[|items| - 1], items[..|items| - 1];
      Strings(front) + if last.Str? then [last.s] else []
  }

  /** `schema_type`. */
  function SchemaType(v: Value): Option<string> {
    match Lookup(v, "type")
    case Some(Str(s)) => Some(s)
    case Some(Array(items)) => Some(Join(Strings(items), '|'))
    case _ => None
  }

  /** `first_reference`: an object's own reference, or the first below it. */
  function FirstReference(v: Value): Option<string>
    decreases v, 1, 0
  {
    match v
    case Object(_) =>
      var own := Get(v.members, REF);
      if own.Some? && own.value.Str? then Some(own.value.s) else FirstInMembers(v, 0)
    case Array(_) => FirstInItems(v, 0)
    case _ => None
  }

  function FirstInMembers(v: Value, k: nat): Option<string>
    requires v.Object? && k <= |v.members|
    decreases v, 0, |v.members| - k
  {
    if k == |v.members| then None
    else
      var here := FirstReference(v.members[k].value);
      if here.Some? then here else FirstInMembers(v, k + 1)
  }

  function FirstInItems(v: Value, k: nat): Option<string>
    requires v.Array? && k <= |v.items|
    decreases v, 0, |v.items| - k
  {
    if k == |v.items| then None
    else
      var here := FirstReference(v.items[k]);
      if here.Some? then here else FirstInItems(v, k + 1)
  }

  function Summarize(schema: Value): Summary {
    Summary(SchemaType(schema), ValueString(Lookup(schema, "format")), FirstReference(schema))
  }

  // ----- A reference is found exactly when there is one -----

  /** The object at `site` refers to `target`. */
  predicate RefersAt(v: Value, site: seq<string>, target: string) {
    var owner := Walk(v, site);
    owner.Some? && Lookup(owner.value, "$ref") == Some(Str(target))
  }

  lemma RefersBelow(v: Value, token: string, child: Value, site: seq<string>, target: string)
    requires Child(v, token) == Some(child) && RefersAt(child, site, target)
    ensures RefersAt(v, [token] + site, target)
  {
    assert ([token] + site)[1..] == site;
  }

  lemma {:induction false} SearchedMember(v: Value, k: nat, m: nat)
    requires v.Object? && k <= m < |v.members| && FirstReference(v.members[m].value).Some?
    ensures FirstInMembers(v, k).Some?
    decreases m - k
  {
    if k < m {
      SearchedMember(v, k + 1, m);
    }
  }

  lemma {:induction false} SearchedItem(v: Value, k: nat, m: nat)
    requires v.Array? && k <= m < |v.items| && FirstReference(v.items[m]).Some?
    ensures FirstInItems(v, k).Some?
    decreases m - k
  {
    if k < m {
      SearchedItem(v, k + 1, m);
    }
  }

  /** Whatever refers, at any depth, something is found. */
  lemma {:induction false} ReferenceIsFound(v: Value, site: seq<string>, target: string)
    requires RefersAt(v, site, target)
    ensures FirstReference(v).Some?
    decreases site
  {
    if site != [] {
      var child := Child(v, site[0]).value;
      ReferenceIsFound(child, site[1..], target);
      if v.Object? {
        var m := GetIsMember(v.members, site[0]);
        SearchedMember(v, 0, m);
      } else {
        SearchedItem(v, 0, ArrayIndex(site[0]).value);
      }
    }
  }

  /** The traversal comes to `a` before it comes to `b`. */
  predicate Before(v: Value, a: seq<string>, b: seq<string>)
    decreases a
  {
    b != [] &&
    if a == [] then true
    else if a[0] != b[0] then Earlier(v, a[0], b[0])
    else Child(v, a[0]).Some? && Before(Child(v, a[0]).value, a[1..], b[1..])
  }

  /** One child stands before another. */
  predicate Earlier(v: Value, a: string, b: string) {
    match v
    case Object(members) => exists i, j | 0 <= i < j < |members| :: members[i].key == a && members[j].key == b
    case Array(items) => ArrayIndex(a).Some? && ArrayIndex(b).Some? && ArrayIndex(a).value < ArrayIndex(b).value
    case _ => false
  }

  /** No object that the traversal comes to before `site` has a reference. */
  ghost predicate NoneBefore(v: Value, site: seq<string>) {
    forall other, target | RefersAt(v, other, target) :: !Before(v, other, site)
  }

  lemma NoneBeforeBelow(v: Value, token: string, child: Value, below: seq<string>)
    requires Child(v, token) == Some(child) && NoneBefore(child, below)
    requires forall target :: !RefersAt(v, [], target)
    requires forall other | Earlier(v, other, token) && Child(v, other).Some? ::
      FirstReference(Child(v, other).value).None?
    ensures NoneBefore(v, [token] + below)
  {
    forall other, target | RefersAt(v, other, target)
      ensures !Before(v, other, [token] + below)
    {
      assert other != [];
      assert ([token] + below)[1..] == below;
      assert RefersAt(Child(v, other[0]).value, other[1..], target);
      ReferenceIsFound(Child(v, other[0]).value, other[1..], target);
    }
  }

  /** What is found is a reference in the schema, and the first in the order of the traversal. */
  lemma {:induction false} ReferenceIsFirst(v: Value) returns (site: seq<string>)
    requires WellFormed(v) && FirstReference(v).Some?
    ensures RefersAt(v, site, FirstReference(v).value) && NoneBefore(v, site)
    decreases v, 1, 0
  {
    if v.Object? {
      var own := Get(v.members, REF);
      if own.Some? && own.value.Str? {
        site := [];
      } else {
        site := MemberReferenceIsFirst(v, 0);
      }
    } else {
      site := ItemReferenceIsFirst(v, 0);
    }
  }

  lemma {:induction false} MemberReferenceIsFirst(v: Value, k: nat) returns (site: seq<string>)
    requires v.Object? && WellFormed(v) && k <= |v.members| && FirstInMembers(v, k).Some?
    requires forall target :: !RefersAt(v, [], target)
    requires forall i | 0 <= i < k :: FirstReference(v.members[i].value).None?
    ensures RefersAt(v, site, FirstInMembers(v, k).value) && NoneBefore(v, site)
    decreases v, 0, |v.members| - k
  {
    var Member(key, child) := v.members[k];
    if FirstReference(child).Some? {
      var below := ReferenceIsFirst(child);
      GetFinds(v.members, k);
      RefersBelow(v, key, child, below, FirstReference(child).value);
      forall other | Earlier(v, other, key) && Child(v, other).Some?
        ensures FirstReference(Child(v, other).value).None?
      {
        var i, j :| 0 <= i < j < |v.members| && v.members[i].key == other && v.members[j].key == key;
        GetFinds(v.members, i);
      }
      NoneBeforeBelow(v, key, child, below);
      site := [key] + below;
    } else {
      site := MemberReferenceIsFirst(v, k + 1);
    }
  }

  lemma {:induction false} ItemReferenceIsFirst(v: Value, k: nat) returns (site: seq<string>)
    requires v.Array? && WellFormed(v) && k <= |v.items| && FirstInItems(v, k).Some?
    requires forall i | 0 <= i < k :: FirstReference(v.items[i]).None?
    ensures RefersAt(v, site, FirstInItems(v, k).value) && NoneBefore(v, site)
    decreases v, 0, |v.items| - k
  {
    var child := v.items[k];
    if FirstReference(child).Some? {
      var below := ReferenceIsFirst(child);
      ArrayIndexDecimal(k);
      RefersBelow(v, Decimal(k), child, below, FirstReference(child).value);
      NoneBeforeBelow(v, Decimal(k), child, below);
      site := [Decimal(k)] + below;
    } else {
      site := ItemReferenceIsFirst(v, k + 1);
    }
  }

  // ----- What a summary says of a schema -----

  function StringsOf(items: seq<Value>): set<nat> {
    set i: nat | i < |items| && items[i].Str?
  }

  /** These are the strings among the items, in order. */
  predicate AreStrings(words: seq<string>, items: seq<Value>, picked: seq<nat>) {
    && Lists(picked, StringsOf(items)) && |words| == |picked|
    && forall k | 0 <= k < |picked| :: picked[k] < |items| && items[picked[k]] == Str(words[k])
  }

  /** Splitting the text at the bars gives the words back, unless they hold bars themselves. */
  predicate IsJoined(text: string, words: seq<string>) {
    && (words == [] ==> text == "")
    && (words != [] ==> Split(text, '|') == SplitEach(words, '|'))
    && (words != [] && Free(words, '|') ==> Split(text, '|') == words)
  }

  ghost predicate IsTypeOf(fieldType: Option<string>, schema: Value) {
    match Lookup(schema, "type")
    case Some(Str(s)) => fieldType == Some(s)
    case Some(Array(items)) =>
      fieldType.Some? && exists words, picked :: AreStrings(words, items, picked) && IsJoined(fieldType.value, words)
    case _ => fieldType.None?
  }

  predicate IsFormatOf(format: Option<string>, schema: Value) {
    match Lookup(schema, "format")
    case Some(Str(s)) => format == Some(s)
    case Some(Number(text)) => format == Some(text)
    case _ => format.None?
  }

  /** The schema's own reference, or the first inside it, or none if there is none. */
  ghost predicate IsReferenceOf(reference: Option<string>, schema: Value) {
    && (forall target | Lookup(schema, "$ref") == Some(Str(target)) :: reference == Some(target))
    && (reference.Some? ==> exists site :: RefersAt(schema, site, reference.value) && NoneBefore(schema, site))
    && (reference.None? ==> forall site, target :: !RefersAt(schema, site, target))
  }

  ghost predicate Summarizes(summary: Summary, schema: Value) {
    && IsTypeOf(summary.fieldType, schema)
    && IsFormatOf(summary.format, schema)
    && IsReferenceOf(summary.reference, schema)
  }

  lemma StringsNext(words: seq<string>, items: seq<Value>, item: Value, picked: seq<nat>)
    requires AreStrings(words, items, picked)
    ensures item.Str? ==> AreStrings(words + [item.s], items + [item], picked + [|items|])
    ensures !item.Str? ==> AreStrings(words, items + [item], picked)
  {
    ListsNext(picked, StringsOf(items), |items|);
    assert StringsOf(items + [item]) == StringsOf(items) + if item.Str? then {|items|} else {};
    assert forall k | 0 <= k < |picked| :: (items + [item])[picked[k]] == items[picked[k]];
  }

  lemma {:induction false} StringsAre(items: seq<Value>) returns (picked: seq<nat>)
    ensures AreStrings(Strings(items), items, picked)
  {
    if items == [] {
      picked := [];
    } else {
      var n := |items| - 1;
      var front, last := items[..n], items[n];
      assert items == front + [last];
      picked := StringsAre(front);
      StringsNext(Strings(front), front, last, picked);
      picked := if last.Str? then picked + [n] else picked;
    }
  }

  lemma JoinIsJoined(words: seq<string>)
    ensures IsJoined(Join(words, '|'), words)
  {
    if words != [] {
      SplitJoin(words, '|');
      SplitEachLength(words, '|');
    }
  }

  lemma TypeIsTypeOf(schema: Value)
    ensures IsTypeOf(SchemaType(schema), schema)
  {
    var member := Lookup(schema, "type");
    if member.Some? && member.value.Array? {
      var picked := StringsAre(member.value.items);
      JoinIsJoined(Strings(member.value.items));
    }
  }

  lemma ReferenceIsReferenceOf(schema: Value)
    requires WellFormed(schema)
    ensures IsReferenceOf(FirstReference(schema), schema)
  {
    if FirstReference(schema).Some? {
      var site := ReferenceIsFirst(schema);
    }
    forall site, target | RefersAt(schema, site, target)
      ensures FirstReference(schema).Some?
    {
      ReferenceIsFound(schema, site, target);
    }
  }

  lemma SummarizeSummarizes(schema: Value)
    requires WellFormed(schema)
    ensures Summarizes(Summarize(schema), schema)
  {
    TypeIsTypeOf(schema);
    ReferenceIsReferenceOf(schema);
  }
}
