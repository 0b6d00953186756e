/**
 Storing values as JSON and reading them back along the template of a class. Values are trees;
 the text of a JSON value and the parser for it are taken to be exact inverses.
*/
module Serializer {
  import opened Wrappers

  datatype Json =
    | Undefined
    | Null
    | Bool(b: bool)
    | Num(n: real)
    | Str(s: string)
    | Arr(items: seq<Json>)
    | Obj(fields: map<string, Json>)

  predicate Hidden(key: string)
    ensures Hidden(key) <==> "_" <= key
  {
    key != "" && key[0] == '_'
  }

  predicate Nullish(v: Json)
  {
    v.Undefined? || v.Null?
  }

  predicate IsObject(v: Json)
  {
    v.Arr? || v.Obj?
  }

  /** The value that the JSON text of `v` stands for. */
  function Serialized(v: Json): Json
  {
    match v
    case Arr(items) =>
      Arr(seq(|items|, i requires 0 <= i < |items| =>
            if items[i].Undefined? then Null else Serialized(items[i])))
    case Obj(fields) =>
      Obj(map k | k in fields && !Hidden(k) && !fields[k].Undefined? :: Serialized(fields[k]))
    case _ => v
  }

  /** The key of an array position. */
  function IndexKey(i: nat): string
  {
    var digit := ['0' + (i % 10) as char];
    if i < 10 then digit else IndexKey(i / 10) + digit
  }

  /** The position among the first `n` that has the given key. */
  function Position(key: string, n: nat): Option<nat>
  {
    if n == 0 then None else if IndexKey(n - 1) == key then Some(n - 1) else Position(key, n - 1)
  }

  /** Reading a member; the members that all objects inherit are not part of this model. */
  function Member(v: Json, key: string): Json
  {
    match v
    case Obj(fields) => if key in fields then fields[key] else Undefined
    case Arr(items) =>
      var p := Position(key, |items|);
      if p.Some? && p.value < |items| then items[p.value] else Undefined
    case Str(s) =>
      var p := Position(key, |s|);
      if p.Some? && p.value < |s| then Str([s[p.value]]) else Undefined
    case _ => Undefined
  }

  lemma {:induction false} IndexKeyIsUnique(i: nat, j: nat)
    ensures IndexKey(i) == IndexKey(j) ==> i == j
  {
    if IndexKey(i) == IndexKey(j) {
      LastDigit(i);
      LastDigit(j);
      DigitIsUnique(i % 10, j % 10);
      assert |IndexKey(i)| == |IndexKey(j)|;
      if |IndexKey(i)| > 1 {
        assert IndexKey(i)[..|IndexKey(i)| - 1] == IndexKey(i / 10);
        assert IndexKey(j)[..|IndexKey(j)| - 1] == IndexKey(j / 10);
        IndexKeyIsUnique(i / 10, j / 10);
      }
    }
  }

  lemma DigitIsUnique(a: nat, b: nat)
    requires a < 10 && b < 10 && '0' + a as char == '0' + b as char
    ensures a == b
  {}

  lemma LastDigit(i: nat)
    ensures IndexKey(i) != "" && IndexKey(i)[|IndexKey(i)| - 1] == '0' + (i % 10) as char
    ensures |IndexKey(i)| == 1 <==> i < 10
  {
    if i >= 10 { LastDigit(i / 10); }
  }

  /** The key of a position finds that position, and no other key does. */
  lemma {:induction false} PositionIsExact(key: string, n: nat, i: nat)
    ensures Position(key, n) == Some(i) <==> i < n && key == IndexKey(i)
  {
    if n > 0 {
      PositionIsExact(key, n - 1, i);
      IndexKeyIsUnique(n - 1, i);
    }
  }

  /** Positions beyond the end hold nothing, in an array and in a string. */
  lemma MemberAt(items: seq<Json>, s: string, i: nat)
    ensures Member(Arr(items), IndexKey(i)) == if i < |items| then items[i] else Undefined
    ensures Member(Str(s), IndexKey(i)) == if i < |s| then Str([s[i]]) else Undefined
  {
    PositionIsExact(IndexKey(i), |items|, i);
    PositionIsExact(IndexKey(i), |s|, i);
    forall n, p | Position(IndexKey(i), n) == Some(p) ensures p == i && i < n {
      PositionIsExact(IndexKey(i), n, p);
      IndexKeyIsUnique(i, p);
    }
  }

  /** Merging goes over the keys of the target. */
  function Merge(target: Json, source: Json): Json
    decreases target, 0
  {
    match target
    case Obj(fields) => Obj(map k | k in fields :: MergeField(fields[k], Member(source, k)))
    case Arr(items) =>
      Arr(seq(|items|, i requires 0 <= i < |items| => MergeField(items[i], Member(source, IndexKey(i)))))
    case _ => target
  }

  function MergeField(target: Json, source: Json): Json
    decreases target, 1
  {
    if target.Arr? && source.Arr? then source
    else if IsObject(target) && IsObject(source) then Merge(target, source)
    else if !Nullish(source) then source
    else target
  }

  predicate Falsy(v: Json)
  {
    Nullish(v) || v == Bool(false) || v == Num(0.0) || v == Str("")
  }

  /** Reading a parsed JSON text along a template. */
  function Deserialize(parsed: Json, template: Json): Json
  {
    Merge(template, if Falsy(parsed) then Obj(map[]) else parsed)
  }

  /** The loop over the keys, which assigns the fields of the target one by one. */
  method MergeInto(target: Json, source: Json) returns (merged: Json)
    ensures merged == Merge(target, source)
    decreases target, 0
  {
    match target
    case Obj(fields) =>
      var current := fields;
      var todo := fields.Keys;
      while todo != {}
        invariant todo <= fields.Keys == current.Keys
        invariant forall k :: k in fields ==>
                    current[k] == if k in todo then fields[k] else MergeField(fields[k], Member(source, k))
      {
        var k :| k in todo;
        var field := MergeFieldInto(fields[k], Member(source, k));
        current := current[k := field];
        todo := todo - {k};
      }
      merged := Obj(current);
    case Arr(items) =>
      var current := items;
      for i := 0 to |items|
        invariant |current| == |items|
        invariant forall k :: 0 <= k < |items| ==>
                    current[k] == if k >= i then items[k] else MergeField(items[k], Member(source, IndexKey(k)))
      {
        var item := MergeFieldInto(items[i], Member(source, IndexKey(i)));
        current := current[i := item];
      }
      merged := Arr(current);
    case _ =>
      merged := target;
  }

  method MergeFieldInto(target: Json, source: Json) returns (merged: Json)
    ensures merged == MergeField(target, source)
    decreases target, 1
  {
    if target.Arr? && source.Arr? {
      merged := source;
    } else if IsObject(target) && IsObject(source) {
      merged := MergeInto(target, source);
    } else if !Nullish(source) {
      merged := source;
    } else {
      merged := target;
    }
  }

  // ---------- round trip ----------

  /** Nothing in the tree is lost in its JSON text. */
  predicate Clean(v: Json)
  {
    match v
    case Arr(items) => forall i :: 0 <= i < |items| ==> !items[i].Undefined? && Clean(items[i])
    case Obj(fields) => forall k :: k in fields ==> !Hidden(k) && !fields[k].Undefined? && Clean(fields[k])
    case _ => true
  }

  lemma {:induction false} CleanIsStable(v: Json)
    ensures Serialized(v) == v <==> Clean(v)
  {
    match v
    case Arr(items) =>
      var out := Serialized(v).items;
      forall i | 0 <= i < |items| ensures out[i] == items[i] <==> !items[i].Undefined? && Clean(items[i]) {
        CleanIsStable(items[i]);
      }
      assert Serialized(v) == v ==> forall i :: 0 <= i < |items| ==> out[i] == items[i];
      assert Clean(v) ==> out == items;
    case Obj(fields) =>
      var out := Serialized(v).fields;
      forall k | k in fields
        ensures k in out && out[k] == fields[k] <==> !Hidden(k) && !fields[k].Undefined? && Clean(fields[k])
      {
        CleanIsStable(fields[k]);
      }
      assert Serialized(v) == v ==> forall k :: k in fields ==> k in out && out[k] == fields[k];
      assert Clean(v) ==> out == fields;
    case _ =>
  }

  /** Nothing more is lost once a tree was text. */
  lemma {:induction false} TextIsClean(v: Json)
    ensures Clean(Serialized(v)) && (Serialized(v).Undefined? <==> v.Undefined?)
  {
    match v
    case Arr(items) =>
      forall i | 0 <= i < |items| ensures Clean(Serialized(v).items[i]) && !Serialized(v).items[i].Undefined? {
        TextIsClean(items[i]);
      }
    case Obj(fields) =>
      forall k | k in fields
        ensures Clean(Serialized(fields[k])) && (Serialized(fields[k]).Undefined? <==> fields[k].Undefined?)
      {
        TextIsClean(fields[k]);
      }
    case _ =>
  }

  /**
   The tree fits the template: the same keys wherever both are objects, and nothing the JSON text or the
   merging loses.
  */
  predicate Conforms(template: Json, v: Json)
    decreases template, 0
  {
    template.Obj? && v.Obj? && template.fields.Keys == v.fields.Keys
    && forall k :: k in template.fields ==> FieldConforms(k, template.fields[k], v.fields[k])
  }

  predicate FieldConforms(key: string, template: Json, v: Json)
    decreases template, 1
  {
    if Hidden(key) || Nullish(v) then template == v
    else if template.Obj? && v.Obj? then Conforms(template, v)
    else if IsObject(template) && IsObject(v) then template.Arr? && v.Arr? && Clean(v)
    else Clean(v)
  }

  /** What is found under a key after a value was stored there. */
  function Read(key: string, v: Json): Json
  {
    if Hidden(key) then Undefined else Serialized(v)
  }

  lemma {:induction false} FieldRoundTrip(key: string, template: Json, v: Json)
    ensures MergeField(template, Read(key, v)) == v <==> FieldConforms(key, template, v)
    decreases template, 1
  {
    CleanIsStable(v);
    if template.Obj? && v.Obj? && !Hidden(key) { RoundTrip(template, v); }
  }

  /** Storing a tree and reading it back gives the tree, exactly if it conforms to the template. */
  lemma {:induction false} RoundTrip(template: Json, v: Json)
    requires template.Obj? && v.Obj?
    ensures Merge(template, Serialized(v)) == v <==> Conforms(template, v)
    decreases template, 0
  {
    var merged := Merge(template, Serialized(v));
    forall k | k in template.fields && k in v.fields
      ensures merged.fields[k] == v.fields[k] <==> FieldConforms(k, template.fields[k], v.fields[k])
    {
      assert Member(Serialized(v), k) == Read(k, v.fields[k]);
      FieldRoundTrip(k, template.fields[k], v.fields[k]);
    }
    assert Conforms(template, v) ==> merged.fields == v.fields;
  }

  /** The same through reading a text, which replaces what counts as nothing by an empty object. */
  lemma StoredIsRead(template: Json, v: Json)
    requires template.Obj? && v.Obj?
    ensures Deserialize(Serialized(v), template) == v <==> Conforms(template, v)
  {
    RoundTrip(template, v);
  }

  // ---------- merging any source ----------

  /** The member at the end of a path of keys. */
  function At(v: Json, path: seq<string>): Json
    decreases |path|
  {
    if path == [] then v else At(Member(v, path[0]), path[1..])
  }

  /** What is found along a path without hidden keys is found in the text as well; nothing may be null there. */
  lemma {:induction false} VisiblePathsStay(v: Json, path: seq<string>)
    requires forall k :: 0 <= k < |path| ==> !Hidden(path[k])
    ensures var found := At(Serialized(v), path);
            if At(v, path).Undefined? then Nullish(found) else found == Serialized(At(v, path))
    decreases |path|
  {
    if path != [] {
      var next, text := Member(v, path[0]), Member(Serialized(v), path[0]);
      if v.Arr? && Position(path[0], |v.items|).Some? {
        PositionIsExact(path[0], |v.items|, Position(path[0], |v.items|).value);
      }
      if next.Undefined? {
        NothingBelow(next, path[1..]);
        NothingBelow(text, path[1..]);
      } else {
        assert text == Serialized(next);
        VisiblePathsStay(next, path[1..]);
      }
    }
  }

  lemma {:induction false} NothingBelow(v: Json, path: seq<string>)
    requires Nullish(v)
    ensures Nullish(At(v, path)) && (v.Undefined? ==> At(v, path).Undefined?)
    decreases |path|
  {
    if path != [] { NothingBelow(Undefined, path[1..]); }
  }

  /** The keys that merging goes over. */
  predicate HasKey(v: Json, key: string)
  {
    match v
    case Obj(fields) => key in fields
    case Arr(items) => Position(key, |items|).Some?
    case _ => false
  }

  /** Along the path the template has the keys, and both trees are objects or arrays, but nowhere both arrays. */
  predicate Parallel(template: Json, source: Json, path: seq<string>)
    decreases |path|
  {
    && IsObject(template)
    && (path != [] ==>
          var t, s := Member(template, path[0]), Member(source, path[0]);
          HasKey(template, path[0]) && IsObject(s) && !(t.Arr? && s.Arr?) && Parallel(t, s, path[1..]))
  }

  /** What merging makes of one member of the template. */
  predicate MergedMember(t: Json, s: Json, r: Json)
  {
    && (Nullish(s) ==> r == t)
    && (!Nullish(s) && !(IsObject(t) && IsObject(s)) ==> r == s)
    && (t.Arr? && s.Arr? ==> r == s)
  }

  lemma MergeMember(template: Json, source: Json, key: string)
    requires HasKey(template, key)
    ensures Member(Merge(template, source), key) == MergeField(Member(template, key), Member(source, key))
  {
    if template.Arr? {
      var p := Position(key, |template.items|).value;
      PositionIsExact(key, |template.items|, p);
    }
  }

  /**
   Wherever an object or array of the template meets one of the source, the result has the keys of
   the template: unknown ones are dropped, missing ones have their default, and a value is taken
   over whole unless an object meets an object, or an array an object, further down.
  */
  lemma {:induction false} TemplateKeysStay(template: Json, source: Json, path: seq<string>)
    requires Parallel(template, source, path)
    ensures var t, r, s := At(template, path), At(Merge(template, source), path), At(source, path);
            && IsObject(t) && (r.Obj? <==> t.Obj?) && (r.Arr? <==> t.Arr?)
            && (forall k :: HasKey(r, k) <==> HasKey(t, k))
            && (forall k :: HasKey(t, k) ==> MergedMember(Member(t, k), Member(s, k), Member(r, k)))
    decreases |path|
  {
    if path == [] {
      forall k | HasKey(template, k)
        ensures MergedMember(Member(template, k), Member(source, k), Member(Merge(template, source), k))
      {
        MergeMember(template, source, k);
      }
    } else {
      MergeMember(template, source, path[0]);
      TemplateKeysStay(Member(template, path[0]), Member(source, path[0]), path[1..]);
    }
  }

  lemma MergedItem(items: seq<Json>, source: Json, i: nat)
    requires i < |items|
    ensures var r := Merge(Arr(items), source);
            r.Arr? && |r.items| == |items| && r.items[i] == MergeField(items[i], Member(source, IndexKey(i)))
  {}

  lemma MergedField(fields: map<string, Json>, source: Json)
    ensures var r := Merge(Obj(fields), source);
            r.Obj? && r.fields.Keys == fields.Keys
            && forall k :: k in fields ==> r.fields[k] == MergeField(fields[k], Member(source, k))
  {}

  lemma MixedKindsMerge(items: seq<Json>, fields: map<string, Json>)
    ensures MergeField(Arr(items), Obj(fields)) == Merge(Arr(items), Obj(fields))
    ensures MergeField(Obj(fields), Arr(items)) == Merge(Obj(fields), Arr(items))
  {}

  lemma MissingStays(target: Json)
    ensures MergeField(target, Undefined) == target
  {}

  /** An array of the template stays one where it meets an object, which can only replace its items by position. */
  lemma ArrayMeetsObject(items: seq<Json>, fields: map<string, Json>, i: nat)
    requires i < |items|
    ensures var r := MergeField(Arr(items), Obj(fields));
            && r.Arr? && |r.items| == |items|
            && r.items[i] == if IndexKey(i) in fields then MergeField(items[i], fields[IndexKey(i)]) else items[i]
  {
    MixedKindsMerge(items, fields);
    MergedItem(items, Obj(fields), i);
    MissingStays(items[i]);
    hide Merge, MergeField, IndexKey;
  }

  /** An object of the template stays one where it meets an array, whose items have no keys but their positions. */
  lemma ObjectMeetsArray(fields: map<string, Json>, items: seq<Json>, k: string)
    requires k in fields && forall i :: 0 <= i < |items| ==> k != IndexKey(i)
    ensures var r := MergeField(Obj(fields), Arr(items));
            r.Obj? && r.fields.Keys == fields.Keys && r.fields[k] == fields[k]
  {
    MixedKindsMerge(items, fields);
    MergedField(fields, Arr(items));
    MissingStays(fields[k]);
    if p :| Position(k, |items|) == Some(p) { PositionIsExact(k, |items|, p); }
    hide Merge, MergeField, IndexKey;
  }

  lemma {:induction false} MergeSelf(v: Json)
    ensures MergeField(v, v) == v
  {
    match v
    case Arr(_) =>
    case Obj(fields) =>
      forall k | k in fields ensures MergeField(fields[k], Member(v, k)) == fields[k] { MergeSelf(fields[k]); }
      assert Merge(v, v).fields == fields;
    case _ =>
  }

  lemma {:induction false} MergeFieldTwice(target: Json, source: Json)
    ensures MergeField(MergeField(target, source), source) == MergeField(target, source)
    decreases target, 1
  {
    if IsObject(target) && IsObject(source) && !(target.Arr? && source.Arr?) {
      MergeTwice(target, source);
    } else {
      MergeSelf(source);
    }
  }

  /** Merging the same source again changes nothing. */
  lemma {:induction false} MergeTwice(target: Json, source: Json)
    ensures Merge(Merge(target, source), source) == Merge(target, source)
    decreases target, 0
  {
    var once := Merge(target, source);
    var twice := Merge(once, source);
    match target
    case Obj(fields) =>
      forall k | k in fields
        ensures twice.fields[k] == once.fields[k]
      {
        MergeFieldTwice(fields[k], Member(source, k));
      }
      assert twice.fields == once.fields;
    case Arr(items) =>
      forall i | 0 <= i < |items|
        ensures twice.items[i] == once.items[i]
      {
        MergeFieldTwice(items[i], Member(source, IndexKey(i)));
      }
      assert twice.items == once.items;
    case _ =>
  }

  /** Reading nothing gives the defaults. */
  lemma NothingIsDefault(template: Json, parsed: Json)
    requires template.Obj? && Falsy(parsed)
    ensures Deserialize(parsed, template) == template
  {
    assert Merge(template, Obj(map[])).fields == template.fields;
  }
}
