/**
 * The memoised presence resolver (processor.go).
 *
 * `isFieldSet` walks a message tree one "."-separated segment at a time,
 * finding each segment by field name or else by JSON name, and caches what
 * it finds under a key per segment.  Protobuf reflection is replaced by an
 * explicit tree: a message is a list of field descriptors, each with its
 * name, JSON name, whether it is set, and the message value it holds when it
 * is message-typed (an unset message field holds the empty default message).
 *
 * The keys are built as written in the source: the whole path for the first
 * segment, then one more "." per segment.  Two different paths can then
 * share a key for different segments, and a cached answer for one is
 * returned for the other (`KeyCollision`).  `PrefixProcessor` keys each
 * segment by the path prefix ending at it, and its answers agree with the
 * uncached walk (`PrefixProcessor.IsFieldSet`).
 */
module SoldrProcessor {
  import opened Wrappers
  import opened GoStrings

  /** A message: its fields, in declaration order. */
  datatype Message = Message(fields: seq<FieldDesc>)

  /** A field of a message: names, presence, and the message it holds when it is message-typed. */
  datatype FieldDesc = FieldDesc(name: string, jsonName: string, has: bool, sub: Option<Message>)

  /** A cache entry: the value found (its message, if any) and whether the field was set. */
  datatype Processed = Processed(value: Option<Message>, isSet: bool)

  type Cache = map<string, Processed>

  /** The first field named `part`. */
  function ByName(fields: seq<FieldDesc>, part: string): (r: Option<FieldDesc>)
    ensures r.Some? ==> r.value in fields && r.value.name == part
    ensures r.None? <==> forall i :: 0 <= i < |fields| ==> fields[i].name != part
  {
    if fields == [] then None
    else if fields[0].name == part then Some(fields[0])
    else ByName(fields[1..], part)
  }

  /** The first field whose JSON name is `part`. */
  function ByJSONName(fields: seq<FieldDesc>, part: string): (r: Option<FieldDesc>)
    ensures r.Some? ==> r.value in fields && r.value.jsonName == part
    ensures r.None? <==> forall i :: 0 <= i < |fields| ==> fields[i].jsonName != part
  {
    if fields == [] then None
    else if fields[0].jsonName == part then Some(fields[0])
    else ByJSONName(fields[1..], part)
  }

  /** `Fields().ByName(part)`, falling back to `Fields().ByJSONName(part)`. */
  function Lookup(m: Message, part: string): (r: Option<FieldDesc>)
    ensures r.Some? ==> r.value in m.fields && (r.value.name == part || r.value.jsonName == part)
    ensures r.None? <==> forall i :: 0 <= i < |m.fields| ==> m.fields[i].name != part && m.fields[i].jsonName != part
  {
    match ByName(m.fields, part)
    case Some(f) => Some(f)
    case None => ByJSONName(m.fields, part)
  }

  /** Whether the field at the end of `parts` is set, found by walking without a cache. */
  function Resolve(m: Message, parts: seq<string>): bool
    requires parts != []
  {
    match Lookup(m, parts[0])
    case None => false
    case Some(f) =>
      if |parts| == 1 then f.has
      else f.sub.Some? && Resolve(f.sub.value, parts[1..])
  }

  /** The message reached by walking `prefix` without a cache. */
  function Reach(m: Message, prefix: seq<string>): Option<Message>
  {
    if prefix == [] then Some(m)
    else match Lookup(m, prefix[0])
      case None => None
      case Some(f) => if f.sub.None? then None else Reach(f.sub.value, prefix[1..])
  }

  /** The entry a walk stores for the segment `p` of a message `cur`. */
  function EntryFor(cur: Message, p: string): (e: Processed)
    ensures e.isSet ==> Lookup(cur, p).Some? && Lookup(cur, p).value.has
  {
    match Lookup(cur, p)
    case None => Processed(None, false)
    case Some(f) => Processed(f.sub, f.has)
  }

  /** The entry an uncached walk stores for the last segment of `prefix`, if the walk gets there. */
  function Entry(m: Message, prefix: seq<string>): Option<Processed>
    requires prefix != []
  {
    match Reach(m, prefix[..|prefix| - 1])
    case None => None
    case Some(cur) => Some(EntryFor(cur, prefix[|prefix| - 1]))
  }

  /** Nothing in a message, at any depth, is set: the default value of a message field. */
  predicate NothingSet(m: Message)
  {
    forall i :: 0 <= i < |m.fields| ==>
      !m.fields[i].has && (m.fields[i].sub.Some? ==> NothingSet(m.fields[i].sub.value))
  }

  /** A well-formed message: an unset message field holds the empty default message, at every depth. */
  predicate Proper(m: Message)
  {
    forall i :: 0 <= i < |m.fields| ==>
      m.fields[i].sub.Some? ==>
        Proper(m.fields[i].sub.value) && (!m.fields[i].has ==> NothingSet(m.fields[i].sub.value))
  }

  lemma {:induction false} NothingSetResolvesFalse(m: Message, parts: seq<string>)
    requires NothingSet(m) && parts != []
    ensures !Resolve(m, parts)
  {
    var f := Lookup(m, parts[0]);
    if f.Some? && |parts| > 1 && f.value.sub.Some? {
      var i :| 0 <= i < |m.fields| && m.fields[i] == f.value;
      NothingSetResolvesFalse(f.value.sub.value, parts[1..]);
    }
  }

  /** Walking one more segment. */
  lemma {:induction false} ReachSnoc(m: Message, prefix: seq<string>, p: string)
    ensures Reach(m, prefix + [p]) ==
      match Reach(m, prefix)
      case None => None
      case Some(cur) => match Lookup(cur, p) case None => None case Some(f) => f.sub
  {
    if prefix == [] {
      assert [] + [p] == [p];
      assert [p][1..] == [];
    } else {
      assert (prefix + [p])[0] == prefix[0];
      assert (prefix + [p])[1..] == prefix[1..] + [p];
      var f := Lookup(m, prefix[0]);
      if f.Some? && f.value.sub.Some? {
        ReachSnoc(f.value.sub.value, prefix[1..], p);
      }
    }
  }

  /** The key of segment `i` as the source builds it: the path, then one more "." per segment. */
  function AsWrittenKey(path: string, i: nat): (k: string)
    ensures |k| == |path| + i && k[..|path|] == path
  {
    if i == 0 then path else AsWrittenKey(path, i - 1) + "."
  }

  /** The walk of `isFieldSet` from segment `i`, whose key is `key`, in the message `cur`. */
  function WalkAsWritten(cache: Cache, parts: seq<string>, i: nat, key: string, cur: Message): (bool, Cache)
    requires i < |parts|
    decreases |parts| - i
  {
    var last := i == |parts| - 1;
    if key in cache then
      var c := cache[key];
      if !c.isSet then (false, cache)
      else if last then (true, cache)
      else if c.value.None? then (false, cache)
      else WalkAsWritten(cache, parts, i + 1, key + ".", c.value.value)
    else
      match Lookup(cur, parts[i])
      case None => (false, cache[key := Processed(None, false)])
      case Some(f) =>
        var stored := cache[key := Processed(f.sub, f.has)];
        if last then (f.has, stored)
        else if f.sub.None? then (false, stored)
        else WalkAsWritten(stored, parts, i + 1, key + ".", f.sub.value)
  }

  /** `isFieldSet` as written: its answer and the cache afterwards. */
  function IsFieldSetAsWritten(cache: Cache, path: string, message: Option<Message>): (bool, Cache)
  {
    if message.None? || path == "" || path == "." then (false, cache)
    else WalkAsWritten(cache, Split(path, '.'), 0, path, message.value)
  }

  /** The walk never changes an entry already cached. */
  lemma {:induction false} WalkKeepsEntries(cache: Cache, parts: seq<string>, i: nat, key: string, cur: Message)
    requires i < |parts|
    ensures forall k :: k in cache ==>
      (k in WalkAsWritten(cache, parts, i, key, cur).1 && WalkAsWritten(cache, parts, i, key, cur).1[k] == cache[k])
    decreases |parts| - i
  {
    if key in cache {
      var c := cache[key];
      if c.isSet && i < |parts| - 1 && c.value.Some? {
        WalkKeepsEntries(cache, parts, i + 1, key + ".", c.value.value);
      }
    } else {
      var f := Lookup(cur, parts[i]);
      if f.Some? && i < |parts| - 1 && f.value.sub.Some? {
        var stored := cache[key := Processed(f.value.sub, f.value.has)];
        WalkKeepsEntries(stored, parts, i + 1, key + ".", f.value.sub.value);
      }
    }
  }

  /** `k` is `path` followed by dots only. */
  ghost predicate PathThenDots(path: string, k: string)
  {
    |k| >= |path| && k[..|path|] == path && forall j :: |path| <= j < |k| ==> k[j] == '.'
  }

  /** One more dot keeps a key of the form path-then-dots. */
  lemma DotExtends(path: string, key: string)
    requires PathThenDots(path, key)
    ensures PathThenDots(path, key + ".")
  {
    assert (key + ".")[..|path|] == key[..|path|];
  }

  /** The keys new after storing `key` and then walking on are `key` and those the rest of the walk added. */
  lemma StoredKeys(cache: Cache, key: string, e: Processed, after: Cache, path: string, lo: int, hi: int)
    requires PathThenDots(path, key) && lo <= |key| < hi
    requires forall k :: k in after && k !in cache[key := e] ==> PathThenDots(path, k) && lo <= |k| < hi
    ensures forall k :: k in after && k !in cache ==> PathThenDots(path, k) && lo <= |k| < hi
  {
    forall k | k in after && k !in cache
      ensures PathThenDots(path, k) && lo <= |k| < hi
    {
      if k != key {
        assert k !in cache[key := e];
      }
    }
  }

  /**
   * Every key the walk adds is the key of one of the path's segments from
   * `i` on: the path followed by one dot per segment after the first.
   */
  lemma {:induction false} WalkNewKeys(cache: Cache, parts: seq<string>, i: nat, path: string, key: string, cur: Message)
    requires i < |parts| && |key| == |path| + i && PathThenDots(path, key)
    ensures var after := WalkAsWritten(cache, parts, i, key, cur).1;
      forall k :: k in after && k !in cache ==> PathThenDots(path, k) && |path| + i <= |k| < |path| + |parts|
    decreases |parts| - i
  {
    var after := WalkAsWritten(cache, parts, i, key, cur).1;
    var next := key + ".";
    DotExtends(path, key);
    if key in cache {
      var c := cache[key];
      if c.isSet && i < |parts| - 1 && c.value.Some? {
        assert after == WalkAsWritten(cache, parts, i + 1, next, c.value.value).1;
        WalkNewKeys(cache, parts, i + 1, path, next, c.value.value);
      } else {
        assert after == cache;
      }
    } else {
      var f := Lookup(cur, parts[i]);
      if f.Some? && i < |parts| - 1 && f.value.sub.Some? {
        var stored := cache[key := Processed(f.value.sub, f.value.has)];
        assert after == WalkAsWritten(stored, parts, i + 1, next, f.value.sub.value).1;
        WalkNewKeys(stored, parts, i + 1, path, next, f.value.sub.value);
        StoredKeys(cache, key, Processed(f.value.sub, f.value.has), after, path, |path| + i, |path| + |parts|);
      } else {
        assert after == cache[key := EntryFor(cur, parts[i])];
      }
    }
  }

  /** When none of the keys the walk will use is cached yet, its answer is the uncached one. */
  lemma {:induction false} WalkWithoutHits(cache: Cache, parts: seq<string>, i: nat, path: string, cur: Message)
    requires i < |parts|
    requires forall j :: i <= j < |parts| ==> AsWrittenKey(path, j) !in cache
    ensures WalkAsWritten(cache, parts, i, AsWrittenKey(path, i), cur).0 == Resolve(cur, parts[i..])
    decreases |parts| - i
  {
    var key := AsWrittenKey(path, i);
    assert AsWrittenKey(path, i + 1) == key + ".";
    assert parts[i..][0] == parts[i];
    var f := Lookup(cur, parts[i]);
    if f.Some? && i < |parts| - 1 && f.value.sub.Some? {
      var stored := cache[key := Processed(f.value.sub, f.value.has)];
      forall j | i + 1 <= j < |parts|
        ensures AsWrittenKey(path, j) !in stored
      {
        assert |AsWrittenKey(path, j)| != |key|;
      }
      assert parts[i..][1..] == parts[i + 1..];
      WalkWithoutHits(stored, parts, i + 1, path, f.value.sub.value);
    }
  }

  /** On an empty cache (a new processor), `isFieldSet` answers as the uncached walk does. */
  lemma FirstCallResolves(path: string, m: Message)
    requires path != "" && path != "."
    ensures IsFieldSetAsWritten(map[], path, Some(m)).0 == Resolve(m, Split(path, '.'))
  {
    WalkWithoutHits(map[], Split(path, '.'), 0, path, m);
    assert Split(path, '.')[0..] == Split(path, '.');
  }

  /**
   * `isFieldSet` as written only adds to the cache: entries already there
   * are kept, and a new key is the path followed by fewer dots than the path
   * has segments.
   */
  lemma AsWrittenOnlyAdds(cache: Cache, path: string, message: Option<Message>)
    ensures var after := IsFieldSetAsWritten(cache, path, message).1;
      (forall k :: k in cache ==> k in after && after[k] == cache[k]) &&
      (forall k :: k in after && k !in cache ==> PathThenDots(path, k) && |path| <= |k| < |path| + |Split(path, '.')|)
  {
    if !(message.None? || path == "" || path == ".") {
      WalkKeepsEntries(cache, Split(path, '.'), 0, path, message.value);
      WalkNewKeys(cache, Split(path, '.'), 0, path, path, message.value);
    }
  }

  /** The processor of the source, with its cache. */
  class FieldProcessor {
    var cache: Cache

    /** `newFieldProcessor`. */
    constructor ()
      ensures cache == map[]
    {
      cache := map[];
    }

    /** `isFieldSet`, with keys built as written. */
    method IsFieldSet(path: string, message: Option<Message>) returns (r: bool)
      modifies this
      ensures (r, cache) == IsFieldSetAsWritten(old(cache), path, message)
      ensures message.None? || path == "" || path == "." ==> !r && cache == old(cache)
    {
      if message.None? || path == "" || path == "." {
        return false;
      }
      var cur := message.value;
      var fieldParts := Split(path, '.');
      var currentPath := "";
      var i := 0;
      while i < |fieldParts|
        invariant 0 <= i < |fieldParts|
        invariant currentPath == if i == 0 then "" else AsWrittenKey(path, i - 1)
        invariant IsFieldSetAsWritten(old(cache), path, message)
               == WalkAsWritten(cache, fieldParts, i, AsWrittenKey(path, i), cur)
        decreases |fieldParts| - i
      {
        if currentPath == "" {
          currentPath := path;
        } else {
          currentPath := currentPath + ".";
        }
        assert currentPath == AsWrittenKey(path, i);
        if currentPath in cache {
          var cached := cache[currentPath];
          if !cached.isSet {
            return false;
          }
          if i == |fieldParts| - 1 {
            return true;
          }
          if cached.value.None? {
            return false;
          }
          cur := cached.value.value;
          i := i + 1;
          continue;
        }
        var field := Lookup(cur, fieldParts[i]);
        if field.None? {
          cache := cache[currentPath := Processed(None, false)];
          return false;
        }
        cache := cache[currentPath := Processed(field.value.sub, field.value.has)];
        if i == |fieldParts| - 1 {
          return field.value.has;
        }
        if field.value.sub.None? {
          return false;
        }
        cur := field.value.sub.value;
        i := i + 1;
      }
      assert false;
    }
  }

  /**
   * The collision: with `a` set and holding a message whose message field
   * `b` is unset, asking for "a.b." caches `a`'s entry under "a.b.", and a
   * later "a.b" then finds that entry for its segment `b` and answers true.
   */
  lemma KeyCollision()
    ensures var inner := Message([FieldDesc("b", "b", false, Some(Message([])))]);
      var m := Message([FieldDesc("a", "a", true, Some(inner))]);
      var first := IsFieldSetAsWritten(map[], "a.b.", Some(m));
      var second := IsFieldSetAsWritten(first.1, "a.b", Some(m));
      Proper(m) && !Resolve(m, ["a", "b"]) && second.0
  {
    var empty := Message([]);
    var inner := Message([FieldDesc("b", "b", false, Some(empty))]);
    var m := Message([FieldDesc("a", "a", true, Some(inner))]);
    assert NothingSet(empty) && Proper(inner);
    assert "a.b."[1..] == ".b." && ".b."[1..] == "b." && "b."[1..] == "." && "."[1..] == "";
    assert "a.b"[1..] == ".b" && ".b"[1..] == "b" && "b"[1..] == "";
    assert Split("", '.') == [""];
    assert Split(".", '.') == ["", ""];
    assert Split("b.", '.') == ["b", ""] by {
      var rest := Split(".", '.');
      assert ['b'] + rest[0] == "b";
      assert rest[1..] == [""];
    }
    assert Split(".b.", '.') == ["", "b", ""];
    assert Split("a.b.", '.') == ["a", "b", ""] by {
      var rest := Split(".b.", '.');
      assert ['a'] + rest[0] == "a";
      assert rest[1..] == ["b", ""];
    }
    assert Split("b", '.') == ["b"] by {
      var rest := Split("", '.');
      assert ['b'] + rest[0] == "b";
      assert rest[1..] == [];
    }
    assert Split(".b", '.') == ["", "b"];
    assert Split("a.b", '.') == ["a", "b"] by {
      var rest := Split(".b", '.');
      assert ['a'] + rest[0] == "a";
      assert rest[1..] == ["b"];
    }
    var fa := FieldDesc("a", "a", true, Some(inner));
    var fb := FieldDesc("b", "b", false, Some(empty));
    assert Lookup(m, "a") == Some(fa);
    assert Lookup(inner, "b") == Some(fb);
    assert Lookup(empty, "") == None;
    assert "a.b." + "." == "a.b..";
    assert "a.b.." + "." == "a.b...";
    var c1 := map["a.b." := Processed(Some(inner), true)];
    var c2 := c1["a.b.." := Processed(Some(empty), false)];
    var c3 := c2["a.b..." := Processed(None, false)];
    assert "a.b.." !in c1 && "a.b..." !in c2;
    assert WalkAsWritten(c2, ["a", "b", ""], 2, "a.b...", empty) == (false, c3);
    assert WalkAsWritten(c1, ["a", "b", ""], 1, "a.b..", inner) == WalkAsWritten(c2, ["a", "b", ""], 2, "a.b...", empty);
    assert WalkAsWritten(map[], ["a", "b", ""], 0, "a.b.", m) == WalkAsWritten(c1, ["a", "b", ""], 1, "a.b..", inner);
    assert IsFieldSetAsWritten(map[], "a.b.", Some(m)) == (false, c3);
    var c4 := c3["a.b" := Processed(Some(inner), true)];
    assert "a.b" !in c3 && "a.b." in c4;
    assert "a.b" + "." == "a.b.";
    assert WalkAsWritten(c4, ["a", "b"], 1, "a.b.", inner) == (true, c4);
    assert WalkAsWritten(c3, ["a", "b"], 0, "a.b", m) == WalkAsWritten(c4, ["a", "b"], 1, "a.b.", inner);
    assert IsFieldSetAsWritten(c3, "a.b", Some(m)).0;
  }

  /** Every cached entry is what an uncached walk of `m` stores under its prefix. */
  ghost predicate CacheValid(cache: Cache, m: Message)
  {
    forall k :: k in cache ==> Entry(m, Split(k, '.')) == Some(cache[k])
  }

  /** What one step of the walk at segment `i` knows, given the message `cur` reached by the segments before it. */
  lemma StepFacts(root: Message, parts: seq<string>, i: nat, cur: Message)
    requires i < |parts| && Reach(root, parts[..i]) == Some(cur)
    requires forall j :: 0 <= j < |parts| ==> '.' !in parts[j]
    ensures Split(Join(parts[..i + 1], '.'), '.') == parts[..i + 1]
    ensures Entry(root, parts[..i + 1]) == Some(EntryFor(cur, parts[i]))
    ensures Reach(root, parts[..i + 1]) == match Lookup(cur, parts[i]) case None => None case Some(f) => f.sub
    ensures Resolve(cur, parts[i..]) ==
      match Lookup(cur, parts[i])
      case None => false
      case Some(f) => if i == |parts| - 1 then f.has else f.sub.Some? && Resolve(f.sub.value, parts[i + 1..])
  {
    SplitJoin(parts[..i + 1], '.');
    assert parts[..i + 1][..i] == parts[..i];
    ReachSnoc(root, parts[..i], parts[i]);
    assert parts[..i] + [parts[i]] == parts[..i + 1];
    assert parts[i..][0] == parts[i];
    assert parts[i..][1..] == parts[i + 1..];
  }

  /** Under a field that is not set, a well-formed message has nothing set further down. */
  lemma UnsetResolvesFalse(cur: Message, parts: seq<string>, i: nat)
    requires i < |parts| - 1 && Proper(cur) && !EntryFor(cur, parts[i]).isSet
    requires Lookup(cur, parts[i]).Some? && Lookup(cur, parts[i]).value.sub.Some?
    ensures !Resolve(Lookup(cur, parts[i]).value.sub.value, parts[i + 1..])
  {
    var f := Lookup(cur, parts[i]).value;
    var j :| 0 <= j < |cur.fields| && cur.fields[j] == f;
    NothingSetResolvesFalse(f.sub.value, parts[i + 1..]);
  }

  /** The message a well-formed message's field holds is well-formed. */
  lemma DescendProper(cur: Message, p: string)
    requires Proper(cur) && Lookup(cur, p).Some? && Lookup(cur, p).value.sub.Some?
    ensures Proper(Lookup(cur, p).value.sub.value)
  {
    var j :| 0 <= j < |cur.fields| && cur.fields[j] == Lookup(cur, p).value;
  }

  /** The key of the prefix ending at segment `i`, extended from the key of the prefix before it. */
  lemma NextKey(parts: seq<string>, i: nat, before: string)
    requires 0 < i < |parts| && before == Join(parts[..i], '.')
    ensures before + "." + parts[i] == Join(parts[..i + 1], '.')
  {
    assert parts[..i + 1][..i] == parts[..i];
    JoinSnoc(parts[..i + 1], '.');
  }

  /**
   * What the walk decides at segment `i` from the entry of that segment:
   * the answer when it stops there, and the message to go on with otherwise.
   */
  lemma StepOutcome(root: Message, parts: seq<string>, i: nat, cur: Message)
    requires i < |parts| && Reach(root, parts[..i]) == Some(cur) && Proper(cur)
    requires forall j :: 0 <= j < |parts| ==> '.' !in parts[j]
    requires Resolve(root, parts) == Resolve(cur, parts[i..])
    ensures Entry(root, Split(Join(parts[..i + 1], '.'), '.')) == Some(EntryFor(cur, parts[i]))
    ensures !EntryFor(cur, parts[i]).isSet ==> !Resolve(root, parts)
    ensures EntryFor(cur, parts[i]).isSet && i == |parts| - 1 ==> Resolve(root, parts)
    ensures EntryFor(cur, parts[i]).isSet && i < |parts| - 1 && EntryFor(cur, parts[i]).value.None? ==> !Resolve(root, parts)
    ensures EntryFor(cur, parts[i]).isSet && i < |parts| - 1 && EntryFor(cur, parts[i]).value.Some? ==>
      var next := EntryFor(cur, parts[i]).value.value;
      Reach(root, parts[..i + 1]) == Some(next) && Proper(next) && Resolve(root, parts) == Resolve(next, parts[i + 1..])
  {
    StepFacts(root, parts, i, cur);
    var found := Lookup(cur, parts[i]);
    if found.Some? && i < |parts| - 1 && found.value.sub.Some? {
      DescendProper(cur, parts[i]);
      if !found.value.has {
        UnsetResolvesFalse(cur, parts, i);
      }
    }
  }

  /** Adding the entry an uncached walk stores for a key keeps the cache valid. */
  lemma CacheValidInsert(cache: Cache, m: Message, key: string, e: Processed)
    requires CacheValid(cache, m) && Entry(m, Split(key, '.')) == Some(e)
    ensures CacheValid(cache[key := e], m)
  {
  }

  /** The processor with each segment keyed by the path prefix that ends at it. */
  class PrefixProcessor {
    var cache: Cache

    constructor ()
      ensures cache == map[]
    {
      cache := map[];
    }

    /** The entry for `key`: the cached one, or else the one found in `cur`, which is then cached. */
    method Fetch(root: Message, key: string, cur: Message, p: string) returns (entry: Processed)
      requires CacheValid(cache, root) && Entry(root, Split(key, '.')) == Some(EntryFor(cur, p))
      modifies this
      ensures entry == EntryFor(cur, p)
      ensures CacheValid(cache, root)
      ensures forall k :: k in old(cache) ==> k in cache && cache[k] == old(cache)[k]
    {
      if key in cache {
        entry := cache[key];
      } else {
        entry := EntryFor(cur, p);
        CacheValidInsert(cache, root, key, entry);
        cache := cache[key := entry];
      }
    }

    /**
     * `isFieldSet` with prefix keys: on a well-formed message whose earlier
     * answers filled the cache, the answer is the uncached one and the cache
     * stays valid; entries already cached are never changed.
     */
    method IsFieldSet(path: string, message: Option<Message>) returns (r: bool)
      requires message.Some? ==> Proper(message.value) && CacheValid(cache, message.value)
      modifies this
      ensures message.None? || path == "" || path == "." ==> !r && cache == old(cache)
      ensures message.Some? && path != "" && path != "." ==> r == Resolve(message.value, Split(path, '.'))
      ensures message.Some? ==> CacheValid(cache, message.value)
      ensures forall k :: k in old(cache) ==> k in cache && cache[k] == old(cache)[k]
    {
      if message.None? || path == "" || path == "." {
        return false;
      }
      var root := message.value;
      var cur := root;
      var parts := Split(path, '.');
      SplitPiecesLackSeparator(path, '.');
      assert parts[0..] == parts;
      var currentPath := "";
      var i := 0;
      while i < |parts|
        invariant 0 <= i < |parts|
        invariant Reach(root, parts[..i]) == Some(cur)
        invariant Proper(cur)
        invariant CacheValid(cache, root)
        invariant forall k :: k in old(cache) ==> k in cache && cache[k] == old(cache)[k]
        invariant i > 0 ==> currentPath == Join(parts[..i], '.')
        invariant Resolve(root, parts) == Resolve(cur, parts[i..])
        decreases |parts| - i
      {
        if i == 0 {
          currentPath := parts[0];
          assert parts[..1] == [parts[0]];
        } else {
          NextKey(parts, i, currentPath);
          currentPath := currentPath + "." + parts[i];
        }
        StepOutcome(root, parts, i, cur);
        var entry := Fetch(root, currentPath, cur, parts[i]);
        if !entry.isSet {
          return false;
        }
        if i == |parts| - 1 {
          return true;
        }
        if entry.value.None? {
          return false;
        }
        cur := entry.value.value;
        i := i + 1;
      }
      assert false;
    }
  }

  /** A new processor's empty cache is valid for every message. */
  lemma EmptyCacheValid(m: Message)
    ensures CacheValid(map[], m)
  {
  }
}
