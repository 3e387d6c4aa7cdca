/**
 * Where references lead, said without the walk that finds it: the resource that a reference names relative
 * to a key, and the schema that stands there under the member names which the pointer spells.
 */
module SchemaTargets {
  import opened Prelude
  import opened Strings
  import opened Pointers
  import opened SchemaEvaluator

  /* ---------- pointers ---------- */

  /** The fragment is a pointer whose segments spell these names. */
  ghost predicate Spells(fragment: string, names: seq<string>) {
    exists raws: seq<string> :: Plain(raws) && fragment == PointerText(raws) && |raws| == |names|
                                && forall i :: 0 <= i < |raws| ==> names[i] == Unescaped(raws[i])
  }

  /** Each part stands in the one before it, as the member with this name. */
  ghost predicate Nested(parts: seq<Json>, names: seq<string>) {
    |parts| == |names| + 1 && forall i :: 0 <= i < |names| ==> parts[i].Get(names[i]) == Some(parts[i + 1])
  }

  /** `part` stands in `root` under a path of member names. */
  ghost predicate StandsAt(root: Json, names: seq<string>, part: Json) {
    exists parts :: Nested(parts, names) && parts[0] == root && parts[|names|] == part
  }

  /* ---------- resources ---------- */

  ghost predicate InDirectory(key: string, directory: string) {
    directory != "" && exists last: string :: '/' !in last && key == directory + "/" + last
  }

  /** A resource as written inside `key`: relative to the directory of the key, unless it says otherwise. */
  ghost predicate RelativeTo(key: string, resource: string, target: string) {
    if resource == "" then target == key
    else exists name :: Stem(resource, name) && Rooted(key, name, target)
  }

  ghost predicate Rooted(key: string, name: string, target: string) {
    if StartsWith(name, "authoring/") || !(exists directory :: InDirectory(key, directory)) then target == name
    else exists directory :: InDirectory(key, directory) && target == directory + "/" + name
  }

  /** The reference, read inside `key`, names this resource. */
  ghost predicate Names(key: string, reference: string, target: string) {
    exists resource, fragment :: Parts(reference, resource, fragment) && RelativeTo(key, resource, target)
  }

  /** The reference, read inside `key`, leads to this schema of this resource. */
  ghost predicate Leads(env: Env, key: string, reference: string, target: string, schema: Json) {
    Names(key, reference, target) && target in env.resources
    && exists resource, fragment, names ::
         Parts(reference, resource, fragment) && Spells(fragment, names) && StandsAt(env.resources[target], names, schema)
  }

  /* ---------- the walk ---------- */

  function NamesIn(raws: seq<string>): (names: seq<string>)
    ensures |names| == |raws| && forall i :: 0 <= i < |raws| ==> names[i] == Unescaped(raws[i])
  {
    seq(|raws|, i requires 0 <= i < |raws| => Unescaped(raws[i]))
  }

  lemma StandsBelow(root: Json, names: seq<string>, part: Json)
    requires names != []
    ensures StandsAt(root, names, part) <==>
              root.Get(names[0]).Some? && StandsAt(root.Get(names[0]).value, names[1..], part)
  {
    var n := |names|;
    if StandsAt(root, names, part) {
      var parts :| Nested(parts, names) && parts[0] == root && parts[n] == part;
      assert root.Get(names[0]) == Some(parts[1]);
      assert Nested(parts[1..], names[1..]);
    }
    if root.Get(names[0]).Some? && StandsAt(root.Get(names[0]).value, names[1..], part) {
      var parts :| Nested(parts, names[1..]) && parts[0] == root.Get(names[0]).value && parts[n - 1] == part;
      assert Nested([root] + parts, names);
    }
  }

  lemma {:induction false} WalkStands(root: Json, raws: seq<string>, part: Json)
    ensures WalkMembers(root, raws) == Some(part) <==> StandsAt(root, NamesIn(raws), part)
    decreases |raws|
  {
    var names := NamesIn(raws);
    if raws == [] {
      if root == part {
        assert Nested([root], names);
      }
    } else {
      hide StandsAt, Unescaped, SegmentName;
      var child := root.Get(SegmentName(raws[0]));
      SegmentSpells(raws[0]);
      assert names[1..] == NamesIn(raws[1..]);
      StandsBelow(root, names, part);
      if child.Some? {
        WalkStands(child.value, raws[1..], part);
      }
    }
  }

  /* ---------- the resource ---------- */

  lemma LastSlash(directory: string, last: string)
    requires '/' !in last
    ensures var key := directory + "/" + last; key[|key| - 1] == '/' <==> last == ""
  {
  }

  lemma {:induction false} DirectoryMeans(key: string, directory: string)
    ensures InDirectory(key, directory) <==> directory != "" && directory == Directory(key)
    decreases |key|
  {
    if key != "" {
      var n := |key| - 1;
      if key[n] == '/' {
        if InDirectory(key, directory) {
          var last: string :| '/' !in last && key == directory + "/" + last;
          LastSlash(directory, last);
          assert key == directory + "/" && key[..n] == directory;
        }
        if directory == Directory(key) && directory != "" {
          assert key == directory + "/" + "";
        }
      } else {
        DirectoryMeans(key[..n], directory);
        if InDirectory(key, directory) {
          var last: string :| '/' !in last && key == directory + "/" + last;
          LastSlash(directory, last);
          assert key[..n] == directory + "/" + last[..|last| - 1];
        }
        if InDirectory(key[..n], directory) {
          var last: string :| '/' !in last && key[..n] == directory + "/" + last;
          assert key == key[..n] + [key[n]] == directory + "/" + (last + [key[n]]);
        }
      }
    }
  }

  lemma RelativeMeans(key: string, resource: string, target: string)
    ensures RelativeTo(key, resource, target) <==>
              target == if resource == "" then key
                        else var name := TrimEnd(resource, ".json");
                             if !StartsWith(name, "authoring/") && Directory(key) != "" then Directory(key) + "/" + name else name
  {
    forall name ensures Stem(resource, name) <==> name == TrimEnd(resource, ".json") {
      StemMeans(resource, name);
    }
    forall directory ensures InDirectory(key, directory) <==> directory != "" && directory == Directory(key) {
      DirectoryMeans(key, directory);
    }
    hide TrimEnd, Directory, Stem, InDirectory, StartsWith;
    assert Stem(resource, TrimEnd(resource, ".json"));
    assert Directory(key) != "" ==> InDirectory(key, Directory(key));
  }

  /** A reference names exactly one resource, the one that the program looks up. */
  lemma NamesExactly(key: string, reference: string, target: string)
    ensures Names(key, reference, target) <==> target == TargetKey(key, reference)
  {
    forall resource, fragment
      ensures Parts(reference, resource, fragment) <==> resource == ResourceOf(reference) && fragment == Fragment(reference)
    {
      PartsOf(reference, resource, fragment);
    }
    RelativeMeans(key, ResourceOf(reference), target);
    hide Parts, RelativeTo, TrimEnd, Directory, StartsWith;
    assert Parts(reference, ResourceOf(reference), Fragment(reference));
  }

  /* ---------- resolution ---------- */

  lemma SpellsMeans(fragment: string, names: seq<string>)
    ensures Spells(fragment, names) <==>
              (fragment == "" && names == [])
              || (fragment != "" && fragment[0] == '/' && names == NamesIn(Split(fragment[1..], '/')))
  {
    hide Unescaped;
    if Spells(fragment, names) {
      var raws: seq<string> :| Plain(raws) && fragment == PointerText(raws) && |raws| == |names|
                               && forall i :: 0 <= i < |raws| ==> names[i] == Unescaped(raws[i]);
      if raws != [] {
        SplitPointer(raws);
        assert names == NamesIn(raws);
      }
    }
    if fragment == "" && names == [] {
      assert Plain([]) && fragment == PointerText([]);
    }
    if fragment != "" && fragment[0] == '/' && names == NamesIn(Split(fragment[1..], '/')) {
      SplitIsPlain(fragment[1..]);
      assert fragment == "/" + fragment[1..];
    }
  }

  /** The schemas that stand under a fragment, by the walk of the program. */
  lemma FragmentLeads(root: Json, fragment: string, schema: Json)
    ensures (exists names :: Spells(fragment, names) && StandsAt(root, names, schema)) <==>
              if fragment == "" then schema == root
              else fragment[0] == '/' && WalkMembers(root, Split(fragment[1..], '/')) == Some(schema)
  {
    forall names
      ensures Spells(fragment, names) <==>
                (fragment == "" && names == [])
                || (fragment != "" && fragment[0] == '/' && names == NamesIn(Split(fragment[1..], '/')))
    {
      SpellsMeans(fragment, names);
    }
    hide Spells, WalkMembers, Split;
    if fragment == "" {
      assert Spells(fragment, []);
      assert Nested([root], []);
    } else if fragment[0] == '/' {
      var raws := Split(fragment[1..], '/');
      assert Spells(fragment, NamesIn(raws));
      WalkStands(root, raws, schema);
    }
  }

  lemma LeadsMeans(env: Env, key: string, reference: string, target: string, schema: Json)
    ensures Leads(env, key, reference, target, schema) <==>
              && target == TargetKey(key, reference) && target in env.resources
              && exists names :: Spells(Fragment(reference), names) && StandsAt(env.resources[target], names, schema)
  {
    NamesExactly(key, reference, target);
    forall resource, f ensures Parts(reference, resource, f) <==> resource == ResourceOf(reference) && f == Fragment(reference) {
      PartsOf(reference, resource, f);
    }
    assert Parts(reference, ResourceOf(reference), Fragment(reference));
    hide Parts, Names, TargetKey, Fragment, ResourceOf, Spells, StandsAt;
  }

  /** Resolution, exactly: it gives a target if and only if the reference leads there. */
  lemma ResolvesExactly(env: Env, key: string, reference: string, target: string, schema: Json)
    ensures ResolveReference(env, key, reference) == Ok((target, schema)) <==> Leads(env, key, reference, target, schema)
  {
    LeadsMeans(env, key, reference, target, schema);
    if target in env.resources {
      FragmentLeads(env.resources[target], Fragment(reference), schema);
    }
    hide TargetKey, Fragment, Leads, Spells, StandsAt, WalkMembers, Split;
  }

  /** And where it gives none, it says what is missing: the resource, a pointer, or the schema under it. */
  lemma FailsExactly(env: Env, key: string, reference: string)
    ensures forall target ::
              ResolveReference(env, key, reference) == Err(TargetUnavailable(target)) <==>
              Names(key, reference, target) && target !in env.resources
    ensures ResolveReference(env, key, reference) == Err(FragmentUnsupported) <==>
              (exists target :: Names(key, reference, target) && target in env.resources)
              && !(exists resource, fragment, names :: Parts(reference, resource, fragment) && Spells(fragment, names))
    ensures ResolveReference(env, key, reference).Err? ==>
              ResolveReference(env, key, reference).error
              in {TargetUnavailable(TargetKey(key, reference)), FragmentUnsupported, PointerUnresolved(reference)}
  {
    var fragment, target := Fragment(reference), TargetKey(key, reference);
    forall t ensures Names(key, reference, t) <==> t == target {
      NamesExactly(key, reference, t);
    }
    forall resource, f ensures Parts(reference, resource, f) <==> resource == ResourceOf(reference) && f == fragment {
      PartsOf(reference, resource, f);
    }
    forall names
      ensures Spells(fragment, names) <==>
                (fragment == "" && names == [])
                || (fragment != "" && fragment[0] == '/' && names == NamesIn(Split(fragment[1..], '/')))
    {
      SpellsMeans(fragment, names);
    }
    assert Parts(reference, ResourceOf(reference), fragment) && Names(key, reference, target);
    hide TargetKey, Fragment, ResourceOf, Parts, Names, Spells, WalkMembers, Split;
    if fragment == "" {
      assert Spells(fragment, []);
    } else if fragment[0] == '/' {
      assert Spells(fragment, NamesIn(Split(fragment[1..], '/')));
    }
  }

  /** Where a reference leads is part of the resource that it names. */
  lemma LeadsInside(env: Env, key: string, reference: string, target: string, schema: Json)
    requires Leads(env, key, reference, target, schema)
    ensures Located(env, schema, target)
  {
    ResolvesExactly(env, key, reference, target, schema);
    ResolvedIsLocated(env, key, reference);
  }

  /** Different references of different resources are never taken for one another, as long as keys have no `#`. */
  lemma ActiveNamesDiffer(k1: string, r1: string, k2: string, r2: string)
    requires '#' !in k1 && '#' !in k2
    ensures ReferenceKey(k1, r1) == ReferenceKey(k2, r2) <==> k1 == k2 && r1 == r2
  {
    if ReferenceKey(k1, r1) == ReferenceKey(k2, r2) {
      FirstMark(k1, r1, k2, r2);
    }
  }
}
