/** Local `$ref` resolution over a JSON document whose references may be cyclic. */
module OpenApi {
  import opened Strings

  /** A parsed document. `Atom` stands for numbers, booleans and null. */
  datatype Json = Obj(fields: seq<Field>) | Arr(items: seq<Json>) | Str(s: string) | Atom(text: string)

  datatype Field = Field(key: string, value: Json)

  /** `Raised`: the Python code raises. `Unfinished`: a bounded expansion ran out of depth. */
  datatype Outcome<+T> = Value(v: T) | Raised | Unfinished
  {
    predicate IsFailure() { !Value? }

    function PropagateFailure<U>(): Outcome<U>
      requires IsFailure()
    {
      if Raised? then Raised else Unfinished
    }

    function Extract(): T
      requires Value?
    {
      v
    }
  }

  const EMPTY := Obj([])
  const MARK := "(circular reference)"
  const CIRCULAR := Obj([Field("type", Str("object")), Field("description", Str(MARK))])

  function Get(fields: seq<Field>, key: string): Option<Json> {
    if fields == [] then None
    else if fields[0].key == key then Some(fields[0].value)
    else Get(fields[1..], key)
  }

  /** What an object's `$ref` makes of it: nothing, a local or an external reference, or a value `startswith` rejects. */
  datatype RefKind = NoRef | Local(ref: string) | External | NotAString

  function RefOf(fields: seq<Field>): RefKind {
    match Get(fields, "$ref")
    case None => NoRef
    case Some(Str(ref)) => if "#/" <= ref then Local(ref) else External
    case Some(_) => NotAString
  }

  /** `ref.lstrip("#/")`: every leading `#` and `/`, in any order. */
  function StripHash(s: string): string {
    if s != "" && s[0] in {'#', '/'} then StripHash(s[1..]) else s
  }

  /** `node.get(key, {})`. */
  function Child(fields: seq<Field>, key: string): Json {
    match Get(fields, key) case None => EMPTY case Some(child) => child
  }

  function Walk(node: Json, parts: seq<string>): (r: Outcome<Json>)
    ensures !r.Unfinished?
    decreases parts
  {
    if parts == [] then Value(node)
    else if !node.Obj? then Raised
    else Walk(Child(node.fields, parts[0]), parts[1..])
  }

  /** What a local reference points at; a missing key gives an empty object, a non-object raises. */
  function Target(root: Json, ref: string): Outcome<Json> {
    Walk(root, Split(StripHash(ref), '/'))
  }

  method Lookup(root: Json, ref: string) returns (r: Outcome<Json>)
    ensures r == Target(root, ref)
    ensures forall value :: r == Value(value) <==> Found(root, Split(StripHash(ref), '/'), value)
                                                   || (Missing(root, Split(StripHash(ref), '/')) && value == Obj([]))
    ensures r == Raised <==> Blocked(root, Split(StripHash(ref), '/'))
  {
    LeadsExactly(root, Split(StripHash(ref), '/'));
    var parts := Split(StripHash(ref), '/');
    var node := root;
    for i := 0 to |parts|
      invariant Walk(root, parts) == Walk(node, parts[i..])
    {
      if !node.Obj? {
        return Raised;
      }
      node := Child(node.fields, parts[i]);
      assert parts[i..][1..] == parts[i + 1..];
    }
    r := Value(node);
  }

  // ---- Where keys lead, by the places of fields ----

  /** Field `i` is the first with the key. */
  predicate FirstAt(fields: seq<Field>, key: string, i: nat) {
    i < |fields| && fields[i].key == key && forall j | 0 <= j < i :: fields[j].key != key
  }

  ghost predicate Holds(fields: seq<Field>, key: string, value: Json) {
    exists i: nat :: FirstAt(fields, key, i) && fields[i].value == value
  }

  predicate Lacks(fields: seq<Field>, key: string) {
    forall i | 0 <= i < |fields| :: fields[i].key != key
  }

  /** The values met on the way inward from the root, a key for each step. */
  ghost predicate Trail(nodes: seq<Json>, root: Json, keys: seq<string>) {
    && 1 <= |nodes| <= |keys| + 1 && nodes[0] == root
    && forall i | 0 <= i < |nodes| - 1 :: nodes[i].Obj? && Holds(nodes[i].fields, keys[i], nodes[i + 1])
  }

  /** The keys lead to the value. */
  ghost predicate Found(root: Json, keys: seq<string>, value: Json) {
    exists nodes: seq<Json> :: Trail(nodes, root, keys) && |nodes| == |keys| + 1 && nodes[|keys|] == value
  }

  /** An object on the way lacks the next key. */
  ghost predicate Missing(root: Json, keys: seq<string>) {
    exists nodes: seq<Json> :: Trail(nodes, root, keys) && 1 <= |nodes| <= |keys|
                    && nodes[|nodes| - 1].Obj? && Lacks(nodes[|nodes| - 1].fields, keys[|nodes| - 1])
  }

  /** Something other than an object stands on the way. */
  ghost predicate Blocked(root: Json, keys: seq<string>) {
    exists nodes: seq<Json> :: Trail(nodes, root, keys) && 1 <= |nodes| <= |keys| && !nodes[|nodes| - 1].Obj?
  }

  lemma {:induction false} GetExactly(fields: seq<Field>, key: string)
    ensures forall value :: Get(fields, key) == Some(value) <==> Holds(fields, key, value)
    ensures Get(fields, key) == None <==> Lacks(fields, key)
  {
    if fields != [] {
      GetExactly(fields[1..], key);
      if fields[0].key == key {
        assert FirstAt(fields, key, 0);
      } else {
        forall i: nat ensures FirstAt(fields, key, i + 1) <==> FirstAt(fields[1..], key, i) {}
        forall value ensures Holds(fields, key, value) <==> Holds(fields[1..], key, value) {
          if i: nat :| FirstAt(fields, key, i) && fields[i].value == value {
            assert FirstAt(fields[1..], key, i - 1) && fields[1..][i - 1].value == value;
          }
          if i: nat :| FirstAt(fields[1..], key, i) && fields[1..][i].value == value {
            assert FirstAt(fields, key, i + 1) && fields[i + 1].value == value;
          }
        }
      }
    }
  }

  /** What an object's first `$ref` makes of it. */
  lemma RefOfExactly(fields: seq<Field>, ref: string)
    ensures RefOf(fields) == Local(ref) <==> Holds(fields, "$ref", Str(ref)) && "#/" <= ref
    ensures RefOf(fields).External? <==> exists r :: Holds(fields, "$ref", Str(r)) && !("#/" <= r)
    ensures RefOf(fields).NotAString? <==> exists v :: Holds(fields, "$ref", v) && !v.Str?
    ensures RefOf(fields).NoRef? <==> Lacks(fields, "$ref")
  {
    GetExactly(fields, "$ref");
    hide Get, Holds, Lacks;
    match Get(fields, "$ref")
    case Some(v) => assert Holds(fields, "$ref", v);
    case None =>
  }

  /** The walk is where every trail continues. */
  lemma {:induction false} TrailWalks(nodes: seq<Json>, root: Json, keys: seq<string>)
    requires Trail(nodes, root, keys)
    ensures Walk(root, keys) == Walk(nodes[|nodes| - 1], keys[|nodes| - 1..])
  {
    hide Holds, Get;
    if |nodes| > 1 {
      var last := |nodes| - 1;
      assert Trail(nodes[..last], root, keys);
      TrailWalks(nodes[..last], root, keys);
      var before := nodes[last - 1];
      assert before.Obj? && Holds(before.fields, keys[last - 1], nodes[last - 1 + 1]);
      GetExactly(before.fields, keys[last - 1]);
      assert keys[last - 1..][1..] == keys[last..];
    }
  }

  /** Every walk leaves a trail, to its end or to where it can go no further. */
  lemma {:induction false} TrailFound(root: Json, keys: seq<string>)
    ensures Missing(root, keys) || Blocked(root, keys) || exists value :: Found(root, keys, value)
  {
    hide Holds, Get, Lacks;
    var nodes := [root];
    while |nodes| <= |keys| && nodes[|nodes| - 1].Obj? && !Lacks(nodes[|nodes| - 1].fields, keys[|nodes| - 1])
      invariant Trail(nodes, root, keys)
      decreases |keys| - |nodes|
    {
      var last := nodes[|nodes| - 1];
      GetExactly(last.fields, keys[|nodes| - 1]);
      nodes := nodes + [Get(last.fields, keys[|nodes| - 1]).value];
    }
    if |nodes| == |keys| + 1 {
      assert Found(root, keys, nodes[|keys|]);
    }
  }

  lemma WalkEnds(root: Json, keys: seq<string>)
    ensures forall value :: Found(root, keys, value) ==> Walk(root, keys) == Value(value)
    ensures Missing(root, keys) ==> Walk(root, keys) == Value(EMPTY)
    ensures Blocked(root, keys) ==> Walk(root, keys) == Raised
  {
    hide Trail;
    forall value | Found(root, keys, value) ensures Walk(root, keys) == Value(value) {
      var nodes: seq<Json> :| Trail(nodes, root, keys) && |nodes| == |keys| + 1 && nodes[|keys|] == value;
      TrailWalks(nodes, root, keys);
    }
    if Blocked(root, keys) {
      var nodes: seq<Json> :| Trail(nodes, root, keys) && 1 <= |nodes| <= |keys| && !nodes[|nodes| - 1].Obj?;
      TrailWalks(nodes, root, keys);
    }
    if Missing(root, keys) {
      var nodes: seq<Json> :| Trail(nodes, root, keys) && 1 <= |nodes| <= |keys|
                   && nodes[|nodes| - 1].Obj? && Lacks(nodes[|nodes| - 1].fields, keys[|nodes| - 1]);
      TrailWalks(nodes, root, keys);
      GetExactly(nodes[|nodes| - 1].fields, keys[|nodes| - 1]);
      EmptyStays(keys[|nodes|..]);
    }
  }

  lemma {:induction false} EmptyStays(keys: seq<string>)
    ensures Walk(EMPTY, keys) == Value(EMPTY)
  {
    if keys != [] {
      EmptyStays(keys[1..]);
    }
  }

  /** The value the keys lead to; an empty object exactly where a key is missing; an error exactly where something other than
      an object stands on the way. */
  lemma LeadsExactly(root: Json, keys: seq<string>)
    ensures forall value :: Walk(root, keys) == Value(value)
                       <==> Found(root, keys, value) || (Missing(root, keys) && value == Obj([]))
    ensures Walk(root, keys) == Raised <==> Blocked(root, keys)
    ensures Missing(root, keys) ==> forall value :: !Found(root, keys, value)
  {
    hide Found, Missing, Blocked;
    WalkEnds(root, keys);
    TrailFound(root, keys);
    forall value | Found(root, keys, value) ensures !Missing(root, keys) {
      FoundIsNotMissing(root, keys, value);
    }
  }

  lemma FoundIsNotMissing(root: Json, keys: seq<string>, value: Json)
    requires Found(root, keys, value)
    ensures !Missing(root, keys)
  {
    hide Trail, Holds, Lacks;
    if Missing(root, keys) {
      var all: seq<Json> :| Trail(all, root, keys) && |all| == |keys| + 1;
      var some: seq<Json> :| Trail(some, root, keys) && 1 <= |some| <= |keys|
                  && some[|some| - 1].Obj? && Lacks(some[|some| - 1].fields, keys[|some| - 1]);
      var last := |some| - 1;
      SameTrail(all, some, root, keys, last);
      TrailStep(all, root, keys, last);
      GetExactly(all[last].fields, keys[last]);
    }
  }

  lemma TrailStep(nodes: seq<Json>, root: Json, keys: seq<string>, i: nat)
    requires Trail(nodes, root, keys) && i < |nodes| - 1
    ensures nodes[i].Obj? && Holds(nodes[i].fields, keys[i], nodes[i + 1])
  {}

  lemma {:induction false} SameTrail(a: seq<Json>, b: seq<Json>, root: Json, keys: seq<string>, i: nat)
    requires Trail(a, root, keys) && Trail(b, root, keys) && i < |a| && i < |b|
    ensures a[i] == b[i]
  {
    hide Holds, Get;
    if i > 0 {
      SameTrail(a, b, root, keys, i - 1);
      TrailStep(a, root, keys, i - 1);
      TrailStep(b, root, keys, i - 1);
      GetExactly(a[i - 1].fields, keys[i - 1]);
    }
  }

  /** What is stripped is the longest run of `#` and `/` at the front. */
  lemma {:induction false} StrippedExactly(s: string) returns (k: nat)
    ensures k <= |s| && StripHash(s) == s[k..] && forall i | 0 <= i < k :: s[i] in {'#', '/'}
    ensures k < |s| ==> s[k] !in {'#', '/'}
  {
    k := 0;
    if s != "" && s[0] in {'#', '/'} {
      k := StrippedExactly(s[1..]);
      k := k + 1;
    }
  }

  lemma {:induction false} StripShortens(s: string)
    ensures |StripHash(s)| <= |s|
  {
    if s != "" && s[0] in {'#', '/'} {
      StripShortens(s[1..]);
    }
  }

  /** Stripping takes off exactly the prefix, unless the path itself starts with one of its characters. */
  lemma PrefixStrippedExactly(path: string)
    ensures StripHash("#/" + path) == path <==> path == "" || path[0] !in {'#', '/'}
  {
    var ref := "#/" + path;
    assert ref[1..] == "/" + path && ref[1..][1..] == path;
    assert StripHash(ref) == StripHash(path);
    if path != "" && path[0] in {'#', '/'} {
      StripShortens(path[1..]);
    }
  }

  /** Otherwise a reference made of keys leads where the keys lead. */
  lemma PathReached(root: Json, keys: seq<string>)
    requires keys != [] && Free(keys, '/') && (keys[0] != "" ==> keys[0][0] != '#') && (keys[0] == "" ==> |keys| == 1)
    ensures forall value :: Target(root, "#/" + Join(keys, '/')) == Value(value)
                       <==> Found(root, keys, value) || (Missing(root, keys) && value == Obj([]))
    ensures Target(root, "#/" + Join(keys, '/')) == Raised <==> Blocked(root, keys)
  {
    LeadsExactly(root, keys);
    var path := Join(keys, '/');
    assert keys[0] != "" ==> path[0] == keys[0][0] && keys[0][0] in keys[0];
    PrefixStrippedExactly(path);
    SplitJoin(keys, '/');
  }

  // ---- The escapes of JSON Pointers (RFC 6901, section 4), which the lookup does not decode ----

  function Decoded(part: string): string {
    if |part| >= 2 && part[0] == '~' && part[1] == '1' then ['/'] + Decoded(part[2..])
    else if |part| >= 2 && part[0] == '~' && part[1] == '0' then ['~'] + Decoded(part[2..])
    else if part != "" then [part[0]] + Decoded(part[1..])
    else ""
  }

  function DecodedAll(parts: seq<string>): seq<string> {
    seq(|parts|, i requires 0 <= i < |parts| => Decoded(parts[i]))
  }

  predicate EscapeAt(s: string, i: nat) { i + 1 < |s| && s[i] == '~' && s[i + 1] in {'0', '1'} }

  ghost predicate Escaped(s: string) { exists i: nat :: EscapeAt(s, i) }

  lemma {:induction false} DecodedShortens(part: string)
    ensures |Decoded(part)| <= |part|
    ensures Decoded(part) == part <==> !Escaped(part)
    ensures |Decoded(part)| == |part| ==> !Escaped(part)
  {
    if EscapeAt(part, 0) {
      DecodedShortens(part[2..]);
    } else if part != "" {
      DecodedShortens(part[1..]);
      forall i: nat | i > 0 ensures EscapeAt(part, i) <==> EscapeAt(part[1..], i - 1) {}
      if i: nat :| EscapeAt(part[1..], i) {
        assert EscapeAt(part, i + 1);
      }
    }
  }

  lemma EscapedParts(left: string, right: string)
    ensures Escaped(left + "/" + right) <==> Escaped(left) || Escaped(right)
  {
    var s := left + "/" + right;
    forall i: nat | i < |left| ensures EscapeAt(s, i) <==> EscapeAt(left, i) {}
    forall i: nat ensures EscapeAt(s, |left| + 1 + i) <==> EscapeAt(right, i) {}
    if i: nat :| EscapeAt(s, i) {
      if i > |left| {
        assert EscapeAt(right, i - |left| - 1);
      }
    }
  }

  lemma DecodedCons(first: string, rest: seq<string>)
    ensures DecodedAll([first] + rest) == [first] + rest <==> Decoded(first) == first && DecodedAll(rest) == rest
  {
    hide Decoded;
    assert DecodedAll([first] + rest) == [Decoded(first)] + DecodedAll(rest);
    assert ([first] + rest)[1..] == rest && ([Decoded(first)] + DecodedAll(rest))[1..] == DecodedAll(rest);
  }

  /** Splitting without decoding gives the keys that are meant if and only if the path has no escape. */
  lemma {:induction false} UndecodedExactly(path: string)
    ensures DecodedAll(Split(path, '/')) == Split(path, '/') <==> !Escaped(path)
    decreases |path|
  {
    hide Decoded, DecodedAll, Escaped, Split, SplitFirst;
    if '/' in path {
      SplitFirstRejoins(path, '/');
      var (left, right) := SplitFirst(path, '/').value;
      SplitCons(left, '/', right);
      UndecodedExactly(right);
      DecodedShortens(left);
      EscapedParts(left, right);
      assert path == left + "/" + right;
      DecodedCons(left, Split(right, '/'));
    } else {
      SplitNoSep(path, '/');
      DecodedShortens(path);
      DecodedCons(path, []);
      assert [path] + [] == [path];
      NothingDecoded();
    }
  }

  lemma NothingDecoded()
    ensures DecodedAll([]) == []
  {}

  // ---- Termination: the references still unseen, then the size of the node ----

  function LocalRefs(node: Json): set<string>
    decreases node, 1
  {
    match node
    case Obj(fields) =>
      (if RefOf(fields).Local? then {RefOf(fields).ref} else {}) + FieldRefs(fields)
    case Arr(items) => ItemRefs(items)
    case _ => {}
  }

  function FieldRefs(fields: seq<Field>): set<string>
    decreases fields, 0
  {
    if fields == [] then {} else LocalRefs(fields[0].value) + FieldRefs(fields[1..])
  }

  function ItemRefs(items: seq<Json>): set<string>
    decreases items, 0
  {
    if items == [] then {} else LocalRefs(items[0]) + ItemRefs(items[1..])
  }

  lemma {:induction false} GetRefs(fields: seq<Field>, key: string)
    ensures Get(fields, key).Some? ==> LocalRefs(Get(fields, key).value) <= FieldRefs(fields)
  {
    if fields != [] {
      GetRefs(fields[1..], key);
    }
  }

  lemma {:induction false} WalkRefs(node: Json, parts: seq<string>)
    ensures Walk(node, parts).Value? ==> LocalRefs(Walk(node, parts).v) <= LocalRefs(node)
    decreases parts
  {
    if parts != [] && node.Obj? {
      GetRefs(node.fields, parts[0]);
      WalkRefs(Child(node.fields, parts[0]), parts[1..]);
    }
  }

  function Unseen(refs: set<string>, root: Json, seen: set<string>): set<string> {
    refs + LocalRefs(root) - seen
  }

  lemma Fewer(a: set<string>, b: set<string>)
    requires a <= b
    ensures |a| <= |b|
    ensures a != b ==> |a| < |b|
  {
    assert b == a + (b - a);
  }

  // ---- resolve_refs ----

  function Resolve(node: Json, root: Json, seen: set<string>): Outcome<Json>
    decreases |Unseen(LocalRefs(node), root, seen)|, node, 1
  {
    match node
    case Obj(fields) =>
      (match RefOf(fields)
       case External => Value(node)
       case NotAString => Raised
       case Local(ref) =>
         if ref in seen then Value(CIRCULAR)
         else
           var target :- Target(root, ref);
           WalkRefs(root, Split(StripHash(ref), '/'));
           Fewer(Unseen(LocalRefs(target), root, seen + {ref}), Unseen(LocalRefs(node), root, seen));
           Resolve(target, root, seen + {ref})
       case NoRef =>
         Fewer(Unseen(FieldRefs(fields), root, seen), Unseen(LocalRefs(node), root, seen));
         var resolved :- ResolveFields(fields, root, seen);
         Value(Obj(resolved)))
    case Arr(items) =>
      var resolved :- ResolveItems(items, root, seen);
      Value(Arr(resolved))
    case _ => Value(node)
  }

  function ResolveFields(fields: seq<Field>, root: Json, seen: set<string>): Outcome<seq<Field>>
    decreases |Unseen(FieldRefs(fields), root, seen)|, fields, 0
  {
    if fields == [] then Value([])
    else
      Fewer(Unseen(LocalRefs(fields[0].value), root, seen), Unseen(FieldRefs(fields), root, seen));
      Fewer(Unseen(FieldRefs(fields[1..]), root, seen), Unseen(FieldRefs(fields), root, seen));
      var first :- Resolve(fields[0].value, root, seen);
      var rest :- ResolveFields(fields[1..], root, seen);
      Value([Field(fields[0].key, first)] + rest)
  }

  function ResolveItems(items: seq<Json>, root: Json, seen: set<string>): Outcome<seq<Json>>
    decreases |Unseen(ItemRefs(items), root, seen)|, items, 0
  {
    if items == [] then Value([])
    else
      Fewer(Unseen(LocalRefs(items[0]), root, seen), Unseen(ItemRefs(items), root, seen));
      Fewer(Unseen(ItemRefs(items[1..]), root, seen), Unseen(ItemRefs(items), root, seen));
      var first :- Resolve(items[0], root, seen);
      var rest :- ResolveItems(items[1..], root, seen);
      Value([first] + rest)
  }

  // ---- What resolving makes of each kind of value ----

  /** An object without `$ref` keeps its keys in order, each value resolved; it fails exactly if one of them does. */
  lemma ObjectResolvesExactly(fields: seq<Field>, root: Json, seen: set<string>)
    requires Lacks(fields, "$ref")
    ensures Resolve(Obj(fields), root, seen).Value? <==> forall i | 0 <= i < |fields| :: Resolve(fields[i].value, root, seen).Value?
    ensures Resolve(Obj(fields), root, seen).Value? ==>
              var out := Resolve(Obj(fields), root, seen).v;
              && out.Obj? && |out.fields| == |fields|
              && forall i | 0 <= i < |fields| ::
                   out.fields[i].key == fields[i].key && Resolve(fields[i].value, root, seen) == Value(out.fields[i].value)
  {
    GetExactly(fields, "$ref");
    FieldsResolveExactly(fields, root, seen);
  }

  lemma {:induction false} FieldsResolveExactly(fields: seq<Field>, root: Json, seen: set<string>)
    ensures ResolveFields(fields, root, seen).Value? <==> forall i | 0 <= i < |fields| :: Resolve(fields[i].value, root, seen).Value?
    ensures ResolveFields(fields, root, seen).Value? ==>
              var out := ResolveFields(fields, root, seen).v;
              && |out| == |fields|
              && forall i | 0 <= i < |fields| ::
                   out[i].key == fields[i].key && Resolve(fields[i].value, root, seen) == Value(out[i].value)
  {
    hide Resolve;
    if fields != [] {
      FieldsResolveExactly(fields[1..], root, seen);
      assert forall i | 0 < i < |fields| :: fields[i] == fields[1..][i - 1];
      assert forall i | 0 <= i < |fields[1..]| :: fields[1..][i] == fields[i + 1];
    }
  }

  /** A list is resolved item by item. */
  lemma {:induction false} ListResolvesExactly(items: seq<Json>, root: Json, seen: set<string>)
    ensures Resolve(Arr(items), root, seen).Value? <==> forall i | 0 <= i < |items| :: Resolve(items[i], root, seen).Value?
    ensures Resolve(Arr(items), root, seen).Value? ==>
              var out := Resolve(Arr(items), root, seen).v;
              && out.Arr? && |out.items| == |items|
              && forall i | 0 <= i < |items| :: Resolve(items[i], root, seen) == Value(out.items[i])
  {
    if items != [] {
      ListResolvesExactly(items[1..], root, seen);
      assert forall i | 0 < i < |items| :: items[i] == items[1..][i - 1];
      assert forall i | 0 <= i < |items[1..]| :: items[1..][i] == items[i + 1];
    }
  }

  /** A local reference becomes the placeholder when it has been followed already, and otherwise what stands where its keys
      lead, resolved; an empty object when a key is missing, an error when something else than an object is in the way. */
  lemma RefResolvesExactly(fields: seq<Field>, ref: string, root: Json, seen: set<string>)
    requires Holds(fields, "$ref", Str(ref)) && "#/" <= ref
    ensures ref in seen ==>
              Resolve(Obj(fields), root, seen)
              == Value(Obj([Field("type", Str("object")), Field("description", Str("(circular reference)"))]))
    ensures ref !in seen ==>
              var keys := Split(StripHash(ref), '/');
              && (forall target :: Found(root, keys, target) ==>
                    Resolve(Obj(fields), root, seen) == Resolve(target, root, seen + {ref}))
              && (Missing(root, keys) ==> Resolve(Obj(fields), root, seen) == Value(Obj([])))
              && (Blocked(root, keys) ==> Resolve(Obj(fields), root, seen) == Raised)
  {
    hide Found, Missing, Blocked, Holds, Split, StripHash;
    RefOfExactly(fields, ref);
    WalkEnds(root, Split(StripHash(ref), '/'));
    assert ResolveFields([], root, seen + {ref}) == Value([]);
    assert Resolve(EMPTY, root, seen + {ref}) == Value(EMPTY);
  }

  /** Anything else stays as it is; a `$ref` that is not text raises. */
  lemma OthersStay(node: Json, root: Json, seen: set<string>)
    ensures !node.Obj? && !node.Arr? ==> Resolve(node, root, seen) == Value(node)
    ensures node.Obj? ==> forall r :: Holds(node.fields, "$ref", Str(r)) && !("#/" <= r) ==> Resolve(node, root, seen) == Value(node)
    ensures node.Obj? ==> forall v :: Holds(node.fields, "$ref", v) && !v.Str? ==> Resolve(node, root, seen) == Raised
  {
    hide Holds;
    if node.Obj? {
      RefOfExactly(node.fields, "");
    }
  }

  // ---- The result is resolved, and resolving again changes nothing ----

  /** No local reference outside an object that is itself an external reference. */
  predicate Resolved(node: Json)
    decreases node, 1
  {
    match node
    case Obj(fields) =>
      RefOf(fields).External? || (RefOf(fields).NoRef? && FieldsResolved(fields))
    case Arr(items) => ItemsResolved(items)
    case _ => true
  }

  predicate FieldsResolved(fields: seq<Field>)
    decreases fields, 0
  {
    fields == [] || (Resolved(fields[0].value) && FieldsResolved(fields[1..]))
  }

  predicate ItemsResolved(items: seq<Json>)
    decreases items, 0
  {
    items == [] || (Resolved(items[0]) && ItemsResolved(items[1..]))
  }

  /** At most `depth` references are left to meet. */
  ghost predicate Fits(refs: set<string>, root: Json, seen: set<string>, depth: nat) {
    |Unseen(refs, root, seen)| <= depth
  }

  lemma FitsSmaller(refs: set<string>, more: set<string>, root: Json, seen: set<string>, depth: nat)
    requires refs <= more && Fits(more, root, seen, depth)
    ensures Fits(refs, root, seen, depth)
  {
    Fewer(Unseen(refs, root, seen), Unseen(more, root, seen));
  }

  /** Following a reference uses one of them up. */
  lemma JumpFits(fields: seq<Field>, ref: string, root: Json, seen: set<string>, depth: nat)
    requires RefOf(fields) == Local(ref) && ref !in seen && Target(root, ref).Value?
    requires Fits(LocalRefs(Obj(fields)), root, seen, depth)
    ensures depth > 0 && Fits(LocalRefs(Target(root, ref).v), root, seen + {ref}, depth - 1)
  {
    WalkRefs(root, Split(StripHash(ref), '/'));
    Fewer(Unseen(LocalRefs(Target(root, ref).v), root, seen + {ref}), Unseen(LocalRefs(Obj(fields)), root, seen));
  }

  lemma {:induction false} ResolveResolves(node: Json, root: Json, seen: set<string>, depth: nat)
    requires Fits(LocalRefs(node), root, seen, depth)
    ensures Resolve(node, root, seen).Value? ==> Resolved(Resolve(node, root, seen).v)
    decreases depth, node, 1
  {
    hide Fits;
    match node
    case Obj(fields) =>
      match RefOf(fields) {
        case Local(ref) =>
          if ref in seen {
            CircularIsPlain();
          } else if Target(root, ref).Value? {
            JumpFits(fields, ref, root, seen, depth);
            ResolveResolves(Target(root, ref).v, root, seen + {ref}, depth - 1);
          }
        case NoRef =>
          FitsSmaller(FieldRefs(fields), LocalRefs(node), root, seen, depth);
          FieldsResolve(fields, root, seen, depth);
          if ResolveFields(fields, root, seen).Value? { ResolveKeepsKeys(fields, root, seen, "$ref"); }
        case _ =>
      }
    case Arr(items) => ItemsResolve(items, root, seen, depth);
    case _ =>
  }

  lemma OneField(f: Field)
    ensures FieldsResolved([f]) == Resolved(f.value) && FieldsMarked([f]) == Marked(f.value)
    ensures f.key != "$ref" ==> Get([f], "$ref") == None
  {
    assert [f][1..] == [];
  }

  lemma CircularIsPlain()
    ensures Resolved(CIRCULAR) && Marked(CIRCULAR)
  {
    var fields := CIRCULAR.fields;
    assert "type"[0] != "$ref"[0] && "description"[0] != "$ref"[0];
    assert fields[1..] == [Field("description", Str(MARK))];
    OneField(Field("description", Str(MARK)));
    assert Get(fields, "$ref") == None;
  }

  lemma {:induction false} ResolveKeepsKeys(fields: seq<Field>, root: Json, seen: set<string>, key: string)
    requires ResolveFields(fields, root, seen).Value?
    ensures Get(fields, key).None? <==> Get(ResolveFields(fields, root, seen).v, key).None?
    decreases fields
  {
    if fields != [] {
      ResolveKeepsKeys(fields[1..], root, seen, key);
      assert ResolveFields(fields, root, seen).v[1..] == ResolveFields(fields[1..], root, seen).v;
    }
  }

  lemma FieldsParts(fields: seq<Field>, root: Json, seen: set<string>)
    requires fields != []
    ensures var r := ResolveFields(fields, root, seen);
            r.Value? ==>
              && var first, rest := Resolve(fields[0].value, root, seen), ResolveFields(fields[1..], root, seen);
              && first.Value? && rest.Value? && r.v != []
              && r.v[0] == Field(fields[0].key, first.v) && r.v[1..] == rest.v
  {}

  lemma ItemsParts(items: seq<Json>, root: Json, seen: set<string>)
    requires items != []
    ensures var r := ResolveItems(items, root, seen);
            r.Value? ==>
              && var first, rest := Resolve(items[0], root, seen), ResolveItems(items[1..], root, seen);
              && first.Value? && rest.Value? && r.v != []
              && r.v[0] == first.v && r.v[1..] == rest.v
  {}

  lemma {:induction false} FieldsResolve(fields: seq<Field>, root: Json, seen: set<string>, depth: nat)
    requires Fits(FieldRefs(fields), root, seen, depth)
    ensures ResolveFields(fields, root, seen).Value? ==> FieldsResolved(ResolveFields(fields, root, seen).v)
    decreases depth, fields, 0
  {
    hide Fits;
    if fields != [] {
      FitsSmaller(LocalRefs(fields[0].value), FieldRefs(fields), root, seen, depth);
      FitsSmaller(FieldRefs(fields[1..]), FieldRefs(fields), root, seen, depth);
      ResolveResolves(fields[0].value, root, seen, depth);
      FieldsResolve(fields[1..], root, seen, depth);
      FieldsParts(fields, root, seen);
    }
  }

  lemma {:induction false} ItemsResolve(items: seq<Json>, root: Json, seen: set<string>, depth: nat)
    requires Fits(ItemRefs(items), root, seen, depth)
    ensures ResolveItems(items, root, seen).Value? ==> ItemsResolved(ResolveItems(items, root, seen).v)
    decreases depth, items, 0
  {
    hide Fits;
    if items != [] {
      FitsSmaller(LocalRefs(items[0]), ItemRefs(items), root, seen, depth);
      FitsSmaller(ItemRefs(items[1..]), ItemRefs(items), root, seen, depth);
      ResolveResolves(items[0], root, seen, depth);
      ItemsResolve(items[1..], root, seen, depth);
      ItemsParts(items, root, seen);
    }
  }

  lemma {:induction false} ResolvedIsFixed(node: Json, root: Json, seen: set<string>)
    requires Resolved(node)
    ensures Resolve(node, root, seen) == Value(node)
    decreases node, 1
  {
    match node
    case Obj(fields) => if RefOf(fields).NoRef? { FieldsFixed(fields, root, seen); }
    case Arr(items) => ItemsFixed(items, root, seen);
    case _ =>
  }

  lemma {:induction false} FieldsFixed(fields: seq<Field>, root: Json, seen: set<string>)
    requires FieldsResolved(fields)
    ensures ResolveFields(fields, root, seen) == Value(fields)
    decreases fields, 0
  {
    if fields != [] {
      ResolvedIsFixed(fields[0].value, root, seen);
      FieldsFixed(fields[1..], root, seen);
      assert fields == [Field(fields[0].key, fields[0].value)] + fields[1..];
    }
  }

  lemma {:induction false} ItemsFixed(items: seq<Json>, root: Json, seen: set<string>)
    requires ItemsResolved(items)
    ensures ResolveItems(items, root, seen) == Value(items)
    decreases items, 0
  {
    if items != [] {
      ResolvedIsFixed(items[0], root, seen);
      ItemsFixed(items[1..], root, seen);
      assert items == [items[0]] + items[1..];
    }
  }

  /** Resolving a resolved document, against itself or anything else, changes nothing. */
  lemma ResolveIdempotent(node: Json, root: Json, seen: set<string>, root': Json, seen': set<string>)
    requires Resolve(node, root, seen).Value?
    ensures var once := Resolve(node, root, seen).v; Resolve(once, root', seen') == Value(once)
  {
    ResolveResolves(node, root, seen, |Unseen(LocalRefs(node), root, seen)|);
    ResolvedIsFixed(Resolve(node, root, seen).v, root', seen');
  }

  // ---- Full substitution: what references mean, with no memory of the path ----

  /** Replaces every reference by its expanded target, following at most `depth` in a row. */
  function Expand(node: Json, root: Json, depth: nat): Outcome<Json>
    decreases depth, node, 1
  {
    match node
    case Obj(fields) =>
      (match RefOf(fields)
       case External => Value(node)
       case NotAString => Raised
       case Local(ref) =>
         if depth == 0 then Unfinished
         else
           var target :- Target(root, ref);
           Expand(target, root, depth - 1)
       case NoRef =>
         var expanded :- ExpandFields(fields, root, depth);
         Value(Obj(expanded)))
    case Arr(items) =>
      var expanded :- ExpandItems(items, root, depth);
      Value(Arr(expanded))
    case _ => Value(node)
  }

  function ExpandFields(fields: seq<Field>, root: Json, depth: nat): Outcome<seq<Field>>
    decreases depth, fields, 0
  {
    if fields == [] then Value([])
    else
      var first :- Expand(fields[0].value, root, depth);
      var rest :- ExpandFields(fields[1..], root, depth);
      Value([Field(fields[0].key, first)] + rest)
  }

  function ExpandItems(items: seq<Json>, root: Json, depth: nat): Outcome<seq<Json>>
    decreases depth, items, 0
  {
    if items == [] then Value([])
    else
      var first :- Expand(items[0], root, depth);
      var rest :- ExpandItems(items[1..], root, depth);
      Value([first] + rest)
  }

  lemma {:induction false} ExpandDeeper(node: Json, root: Json, depth: nat, more: nat)
    requires depth <= more && !Expand(node, root, depth).Unfinished?
    ensures Expand(node, root, more) == Expand(node, root, depth)
    decreases depth, node, 1
  {
    match node
    case Obj(fields) =>
      match RefOf(fields) {
        case Local(ref) =>
          if Target(root, ref).Value? { ExpandDeeper(Target(root, ref).v, root, depth - 1, more - 1); }
        case NoRef => FieldsDeeper(fields, root, depth, more);
        case _ =>
      }
    case Arr(items) => ItemsDeeper(items, root, depth, more);
    case _ =>
  }

  lemma {:induction false} FieldsDeeper(fields: seq<Field>, root: Json, depth: nat, more: nat)
    requires depth <= more && !ExpandFields(fields, root, depth).Unfinished?
    ensures ExpandFields(fields, root, more) == ExpandFields(fields, root, depth)
    decreases depth, fields, 0
  {
    if fields != [] {
      ExpandDeeper(fields[0].value, root, depth, more);
      if Expand(fields[0].value, root, depth).Value? { FieldsDeeper(fields[1..], root, depth, more); }
    }
  }

  lemma {:induction false} ItemsDeeper(items: seq<Json>, root: Json, depth: nat, more: nat)
    requires depth <= more && !ExpandItems(items, root, depth).Unfinished?
    ensures ExpandItems(items, root, more) == ExpandItems(items, root, depth)
    decreases depth, items, 0
  {
    if items != [] {
      ExpandDeeper(items[0], root, depth, more);
      if Expand(items[0], root, depth).Value? { ItemsDeeper(items[1..], root, depth, more); }
    }
  }

  lemma {:induction false} LeastDepth(node: Json, root: Json, depth: nat) returns (least: nat)
    requires !Expand(node, root, depth).Unfinished?
    ensures least <= depth && !Expand(node, root, least).Unfinished?
    ensures least > 0 ==> Expand(node, root, least - 1).Unfinished?
  {
    least := depth;
    if depth > 0 && !Expand(node, root, depth - 1).Unfinished? {
      least := LeastDepth(node, root, depth - 1);
    }
  }

  /** A reference on the current path: its target needs more depth than is left here. */
  ghost predicate Deeper(ref: string, root: Json, depth: nat) {
    depth > 0 ==> Target(root, ref).Value? && Expand(Target(root, ref).v, root, depth - 1).Unfinished?
  }

  lemma {:induction false} ResolveIsExpansion(node: Json, root: Json, seen: set<string>, depth: nat)
    requires !Expand(node, root, depth).Unfinished?
    requires forall ref | ref in seen :: Deeper(ref, root, depth)
    ensures Resolve(node, root, seen) == Expand(node, root, depth)
    decreases depth, node, 1
  {
    match node
    case Obj(fields) =>
      match RefOf(fields) {
        case Local(ref) =>
          assert ref !in seen;
          if Target(root, ref).Value? {
            var target := Target(root, ref).v;
            var least := LeastDepth(target, root, depth - 1);
            forall s | s in seen + {ref} ensures Deeper(s, root, least) {
              if least > 0 && s in seen && !Expand(Target(root, s).v, root, least - 1).Unfinished? {
                ExpandDeeper(Target(root, s).v, root, least - 1, depth - 1);
              }
            }
            ResolveIsExpansion(target, root, seen + {ref}, least);
            ExpandDeeper(target, root, least, depth - 1);
          }
        case NoRef => FieldsAreExpanded(fields, root, seen, depth);
        case _ =>
      }
    case Arr(items) => ItemsAreExpanded(items, root, seen, depth);
    case _ =>
  }

  lemma {:induction false} FieldsAreExpanded(fields: seq<Field>, root: Json, seen: set<string>, depth: nat)
    requires !ExpandFields(fields, root, depth).Unfinished?
    requires forall ref | ref in seen :: Deeper(ref, root, depth)
    ensures ResolveFields(fields, root, seen) == ExpandFields(fields, root, depth)
    decreases depth, fields, 0
  {
    if fields != [] {
      ResolveIsExpansion(fields[0].value, root, seen, depth);
      if Expand(fields[0].value, root, depth).Value? { FieldsAreExpanded(fields[1..], root, seen, depth); }
    }
  }

  lemma {:induction false} ItemsAreExpanded(items: seq<Json>, root: Json, seen: set<string>, depth: nat)
    requires !ExpandItems(items, root, depth).Unfinished?
    requires forall ref | ref in seen :: Deeper(ref, root, depth)
    ensures ResolveItems(items, root, seen) == ExpandItems(items, root, depth)
    decreases depth, items, 0
  {
    if items != [] {
      ResolveIsExpansion(items[0], root, seen, depth);
      if Expand(items[0], root, depth).Value? { ItemsAreExpanded(items[1..], root, seen, depth); }
    }
  }

  // ---- The placeholder marks exactly the cyclic documents ----

  /** Some expansion path never ends. */
  ghost predicate Cyclic(node: Json, root: Json) {
    forall depth: nat :: Expand(node, root, depth).Unfinished?
  }

  /** The placeholder's description occurs somewhere in the document. */
  predicate Marked(node: Json)
    decreases node, 1
  {
    match node
    case Obj(fields) => FieldsMarked(fields)
    case Arr(items) => ItemsMarked(items)
    case Str(s) => s == MARK
    case Atom(_) => false
  }

  predicate FieldsMarked(fields: seq<Field>)
    decreases fields, 0
  {
    fields != [] && (Marked(fields[0].value) || FieldsMarked(fields[1..]))
  }

  predicate ItemsMarked(items: seq<Json>)
    decreases items, 0
  {
    items != [] && (Marked(items[0]) || ItemsMarked(items[1..]))
  }

  /** A resolution that succeeds and shows no placeholder. */
  ghost predicate Plain(node: Json, root: Json, seen: set<string>) {
    Resolve(node, root, seen).Value? && !Marked(Resolve(node, root, seen).v)
  }

  ghost predicate PlainFields(fields: seq<Field>, root: Json, seen: set<string>) {
    ResolveFields(fields, root, seen).Value? && !FieldsMarked(ResolveFields(fields, root, seen).v)
  }

  ghost predicate PlainItems(items: seq<Json>, root: Json, seen: set<string>) {
    ResolveItems(items, root, seen).Value? && !ItemsMarked(ResolveItems(items, root, seen).v)
  }

  /** A resolution without placeholder is a finished expansion. */
  lemma {:induction false} PlainIsFinite(node: Json, root: Json, seen: set<string>, depth: nat)
    requires Plain(node, root, seen) && Fits(LocalRefs(node), root, seen, depth)
    ensures !Expand(node, root, depth).Unfinished?
    decreases depth, node, 2
  {
    hide Fits;
    match node
    case Obj(fields) => PlainObjectIsFinite(fields, root, seen, depth);
    case Arr(items) => PlainItemsAreFinite(items, root, seen, depth);
    case _ =>
  }

  lemma {:induction false} PlainObjectIsFinite(fields: seq<Field>, root: Json, seen: set<string>, depth: nat)
    requires Plain(Obj(fields), root, seen) && Fits(LocalRefs(Obj(fields)), root, seen, depth)
    ensures !Expand(Obj(fields), root, depth).Unfinished?
    decreases depth, Obj(fields), 1
  {
    hide Fits;
    match RefOf(fields)
    case Local(ref) => PlainRefIsFinite(fields, ref, root, seen, depth);
    case NoRef =>
      FitsSmaller(FieldRefs(fields), LocalRefs(Obj(fields)), root, seen, depth);
      PlainFieldsAreFinite(fields, root, seen, depth);
    case _ =>
  }

  lemma {:induction false} PlainRefIsFinite(fields: seq<Field>, ref: string, root: Json, seen: set<string>, depth: nat)
    requires Plain(Obj(fields), root, seen) && Fits(LocalRefs(Obj(fields)), root, seen, depth)
    requires RefOf(fields) == Local(ref)
    ensures !Expand(Obj(fields), root, depth).Unfinished?
    decreases depth, Obj(fields), 0
  {
    hide Fits;
    PlainTarget(fields, ref, root, seen);
    JumpFits(fields, ref, root, seen, depth);
    PlainIsFinite(Target(root, ref).v, root, seen + {ref}, depth - 1);
  }

  lemma PlainTarget(fields: seq<Field>, ref: string, root: Json, seen: set<string>)
    requires RefOf(fields) == Local(ref)
    requires Plain(Obj(fields), root, seen)
    ensures ref !in seen && Target(root, ref).Value?
    ensures Plain(Target(root, ref).v, root, seen + {ref})
  {
    CircularIsPlain();
  }

  lemma {:induction false} PlainFieldsAreFinite(fields: seq<Field>, root: Json, seen: set<string>, depth: nat)
    requires PlainFields(fields, root, seen) && Fits(FieldRefs(fields), root, seen, depth)
    ensures !ExpandFields(fields, root, depth).Unfinished?
    decreases depth, fields, 0
  {
    hide Fits;
    if fields != [] {
      FitsSmaller(LocalRefs(fields[0].value), FieldRefs(fields), root, seen, depth);
      FitsSmaller(FieldRefs(fields[1..]), FieldRefs(fields), root, seen, depth);
      FieldsParts(fields, root, seen);
      PlainIsFinite(fields[0].value, root, seen, depth);
      PlainFieldsAreFinite(fields[1..], root, seen, depth);
    }
  }

  lemma {:induction false} PlainItemsAreFinite(items: seq<Json>, root: Json, seen: set<string>, depth: nat)
    requires PlainItems(items, root, seen) && Fits(ItemRefs(items), root, seen, depth)
    ensures !ExpandItems(items, root, depth).Unfinished?
    decreases depth, items, 0
  {
    hide Fits;
    if items != [] {
      FitsSmaller(LocalRefs(items[0]), ItemRefs(items), root, seen, depth);
      FitsSmaller(ItemRefs(items[1..]), ItemRefs(items), root, seen, depth);
      ItemsParts(items, root, seen);
      PlainIsFinite(items[0], root, seen, depth);
      PlainItemsAreFinite(items[1..], root, seen, depth);
    }
  }

  /** Expansion copies: a mark in its result was in the node or in the document. */
  lemma {:induction false} ExpandUnmarked(node: Json, root: Json, depth: nat)
    requires !Marked(root) && !Marked(node) && Expand(node, root, depth).Value?
    ensures !Marked(Expand(node, root, depth).v)
    decreases depth, node, 1
  {
    match node
    case Obj(fields) =>
      match RefOf(fields) {
        case Local(ref) =>
          WalkUnmarked(root, Split(StripHash(ref), '/'));
          ExpandUnmarked(Target(root, ref).v, root, depth - 1);
        case NoRef => FieldsUnmarked(fields, root, depth);
        case _ =>
      }
    case Arr(items) => ItemsUnmarked(items, root, depth);
    case _ =>
  }

  lemma {:induction false} FieldsUnmarked(fields: seq<Field>, root: Json, depth: nat)
    requires !Marked(root) && !FieldsMarked(fields) && ExpandFields(fields, root, depth).Value?
    ensures !FieldsMarked(ExpandFields(fields, root, depth).v)
    decreases depth, fields, 0
  {
    if fields != [] {
      ExpandUnmarked(fields[0].value, root, depth);
      FieldsUnmarked(fields[1..], root, depth);
      assert ExpandFields(fields, root, depth).v[1..] == ExpandFields(fields[1..], root, depth).v;
    }
  }

  lemma {:induction false} ItemsUnmarked(items: seq<Json>, root: Json, depth: nat)
    requires !Marked(root) && !ItemsMarked(items) && ExpandItems(items, root, depth).Value?
    ensures !ItemsMarked(ExpandItems(items, root, depth).v)
    decreases depth, items, 0
  {
    if items != [] {
      ExpandUnmarked(items[0], root, depth);
      ItemsUnmarked(items[1..], root, depth);
      assert ExpandItems(items, root, depth).v[1..] == ExpandItems(items[1..], root, depth).v;
    }
  }

  lemma {:induction false} GetUnmarked(fields: seq<Field>, key: string)
    requires !FieldsMarked(fields)
    ensures !Marked(Child(fields, key))
  {
    if fields != [] {
      GetUnmarked(fields[1..], key);
    }
  }

  lemma {:induction false} WalkUnmarked(node: Json, parts: seq<string>)
    requires !Marked(node) && Walk(node, parts).Value?
    ensures !Marked(Walk(node, parts).v)
    decreases parts
  {
    if parts != [] {
      GetUnmarked(node.fields, parts[0]);
      WalkUnmarked(Child(node.fields, parts[0]), parts[1..]);
    }
  }

  /** `resolve_refs(spec)`. */
  function ResolveRefs(spec: Json): Outcome<Json> {
    Resolve(spec, spec, {})
  }

  /** On documents whose expansion is finite, resolving is exactly full substitution. */
  lemma AcyclicResolvesToExpansion(spec: Json, depth: nat)
    requires !Expand(spec, spec, depth).Unfinished?
    ensures ResolveRefs(spec) == Expand(spec, spec, depth)
  {
    ResolveIsExpansion(spec, spec, {}, depth);
  }

  /** Resolving always comes to an end: in a value, or where the code raises. */
  lemma {:induction false} ResolveFinishes(node: Json, root: Json, seen: set<string>, depth: nat)
    requires Fits(LocalRefs(node), root, seen, depth)
    ensures !Resolve(node, root, seen).Unfinished?
    decreases depth, node, 1
  {
    hide Fits;
    match node
    case Obj(fields) =>
      match RefOf(fields) {
        case Local(ref) =>
          if ref !in seen && Target(root, ref).Value? {
            JumpFits(fields, ref, root, seen, depth);
            ResolveFinishes(Target(root, ref).v, root, seen + {ref}, depth - 1);
          }
        case NoRef =>
          FitsSmaller(FieldRefs(fields), LocalRefs(node), root, seen, depth);
          FieldsFinish(fields, root, seen, depth);
        case _ =>
      }
    case Arr(items) => ItemsFinish(items, root, seen, depth);
    case _ =>
  }

  lemma {:induction false} FieldsFinish(fields: seq<Field>, root: Json, seen: set<string>, depth: nat)
    requires Fits(FieldRefs(fields), root, seen, depth)
    ensures !ResolveFields(fields, root, seen).Unfinished?
    decreases depth, fields, 0
  {
    hide Fits;
    if fields != [] {
      FitsSmaller(LocalRefs(fields[0].value), FieldRefs(fields), root, seen, depth);
      FitsSmaller(FieldRefs(fields[1..]), FieldRefs(fields), root, seen, depth);
      ResolveFinishes(fields[0].value, root, seen, depth);
      FieldsFinish(fields[1..], root, seen, depth);
    }
  }

  lemma {:induction false} ItemsFinish(items: seq<Json>, root: Json, seen: set<string>, depth: nat)
    requires Fits(ItemRefs(items), root, seen, depth)
    ensures !ResolveItems(items, root, seen).Unfinished?
    decreases depth, items, 0
  {
    hide Fits;
    if items != [] {
      FitsSmaller(LocalRefs(items[0]), ItemRefs(items), root, seen, depth);
      FitsSmaller(ItemRefs(items[1..]), ItemRefs(items), root, seen, depth);
      ResolveFinishes(items[0], root, seen, depth);
      ItemsFinish(items[1..], root, seen, depth);
    }
  }

  /** Of any document: resolving is full substitution, to some depth, if and only if substitution ends. */
  lemma ExpandsUnlessCyclic(spec: Json)
    ensures (exists depth: nat :: ResolveRefs(spec) == Expand(spec, spec, depth)) <==> !Cyclic(spec, spec)
  {
    ResolveFinishes(spec, spec, {}, |Unseen(LocalRefs(spec), spec, {})|);
    if depth: nat :| !Expand(spec, spec, depth).Unfinished? {
      AcyclicResolvesToExpansion(spec, depth);
      assert ResolveRefs(spec) == Expand(spec, spec, depth);
    }
  }

  /** In a document without the placeholder's text, the result shows a placeholder exactly when the document is cyclic. */
  lemma PlaceholderIffCyclic(spec: Json)
    requires !Marked(spec) && ResolveRefs(spec).Value?
    ensures Marked(ResolveRefs(spec).v) <==> Cyclic(spec, spec)
  {
    if !Marked(ResolveRefs(spec).v) {
      PlainIsFinite(spec, spec, {}, |Unseen(LocalRefs(spec), spec, {})|);
    }
    if depth: nat :| !Expand(spec, spec, depth).Unfinished? {
      AcyclicResolvesToExpansion(spec, depth);
      ExpandUnmarked(spec, spec, depth);
    }
  }

  /** A checkable sufficient condition: every reference found under a target ranks below the reference itself. */
  ghost predicate Ranked(root: Json, rank: map<string, nat>) {
    forall ref | ref in LocalRefs(root) ::
      && ref in rank
      && (Target(root, ref).Value? ==> forall r | r in LocalRefs(Target(root, ref).v) :: r in rank && rank[r] < rank[ref])
  }

  ghost predicate Below(refs: set<string>, root: Json, rank: map<string, nat>, depth: nat) {
    refs <= LocalRefs(root) && forall r | r in refs :: r in rank && rank[r] < depth
  }

  lemma {:induction false} RankedIsFinite(node: Json, root: Json, rank: map<string, nat>, depth: nat)
    requires Ranked(root, rank) && Below(LocalRefs(node), root, rank, depth)
    ensures !Expand(node, root, depth).Unfinished?
    decreases depth, node, 1
  {
    match node
    case Obj(fields) =>
      match RefOf(fields) {
        case Local(ref) =>
          if Target(root, ref).Value? {
            WalkRefs(root, Split(StripHash(ref), '/'));
            RankedIsFinite(Target(root, ref).v, root, rank, depth - 1);
          }
        case NoRef => RankedFields(fields, root, rank, depth);
        case _ =>
      }
    case Arr(items) => RankedItems(items, root, rank, depth);
    case _ =>
  }

  lemma {:induction false} RankedFields(fields: seq<Field>, root: Json, rank: map<string, nat>, depth: nat)
    requires Ranked(root, rank) && Below(FieldRefs(fields), root, rank, depth)
    ensures !ExpandFields(fields, root, depth).Unfinished?
    decreases depth, fields, 0
  {
    if fields != [] {
      RankedIsFinite(fields[0].value, root, rank, depth);
      RankedFields(fields[1..], root, rank, depth);
    }
  }

  lemma {:induction false} RankedItems(items: seq<Json>, root: Json, rank: map<string, nat>, depth: nat)
    requires Ranked(root, rank) && Below(ItemRefs(items), root, rank, depth)
    ensures !ExpandItems(items, root, depth).Unfinished?
    decreases depth, items, 0
  {
    if items != [] {
      RankedIsFinite(items[0], root, rank, depth);
      RankedItems(items[1..], root, rank, depth);
    }
  }

  /** Reference-acyclic documents: resolving is full substitution and shows no placeholder of its own. */
  lemma RankedResolvesToExpansion(spec: Json, rank: map<string, nat>, depth: nat)
    requires Ranked(spec, rank) && forall ref | ref in LocalRefs(spec) :: rank[ref] < depth
    ensures ResolveRefs(spec) == Expand(spec, spec, depth) && !ResolveRefs(spec).Unfinished?
    ensures ResolveRefs(spec).Value? && !Marked(spec) ==> !Marked(ResolveRefs(spec).v)
  {
    RankedIsFinite(spec, spec, rank, depth);
    AcyclicResolvesToExpansion(spec, depth);
    if ResolveRefs(spec).Value? && !Marked(spec) {
      ExpandUnmarked(spec, spec, depth);
    }
  }
}
