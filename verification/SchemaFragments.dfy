/**
 * Validation against one fragment of a sealed resource.  The fragment pointer is read more loosely than
 * the pointers of references: empty segments are skipped wherever they stand.
 */
module SchemaFragments {
  import opened Prelude
  import opened Strings
  import opened SchemaEvaluator
  import opened SchemaContext
  import opened Pointers
  import opened SchemaTargets

  function NonEmpty(segments: seq<string>): seq<string> {
    if segments == [] then []
    else if segments[0] == "" then NonEmpty(segments[1..])
    else [segments[0]] + NonEmpty(segments[1..])
  }

  /** The segments that a fragment pointer is walked by. */
  function FragmentSegments(pointer: string): seq<string> {
    NonEmpty(Split(pointer, '/'))
  }

  function TrimStart(s: string, c: char): string {
    if s != "" && s[0] == c then TrimStart(s[1..], c) else s
  }

  /** Trimming the leading slashes changes nothing: they only separate empty segments. */
  lemma {:induction false} TrimStartIsRedundant(pointer: string)
    ensures FragmentSegments(TrimStart(pointer, '/')) == FragmentSegments(pointer)
  {
    if pointer != "" && pointer[0] == '/' {
      TrimStartIsRedundant(pointer[1..]);
      var rest := Split(pointer[1..], '/');
      assert ([""] + rest)[1..] == rest;
    }
  }

  /** The fragment, or the reason there is none. */
  function FragmentSchema(env: Env, rootKey: string, pointer: string): Result<Json, Reason> {
    if rootKey !in env.resources then Err(TargetUnavailable(rootKey)) else
    match WalkMembers(env.resources[rootKey], FragmentSegments(pointer))
    case None => Err(PointerUnresolved(pointer))
    case Some(schema) => Ok(schema)
  }

  lemma FragmentIsLocated(env: Env, rootKey: string, pointer: string)
    requires FragmentSchema(env, rootKey, pointer).Ok?
    ensures Located(env, FragmentSchema(env, rootKey, pointer).value, rootKey)
  {
    WalkedReferences(env.resources[rootKey], FragmentSegments(pointer));
  }

  /** The verdict that a fragment gives. */
  ghost function FragmentVerdict(env: Env, rootKey: string, pointer: string, value: Json): Verdict {
    match FragmentSchema(env, rootKey, pointer)
    case Err(reason) => Invalid("", reason)
    case Ok(schema) =>
      FragmentIsLocated(env, rootKey, pointer);
      Eval(env, {}, value, schema, rootKey, "")
  }

  method ValidateFragment(env: Env, rootKey: string, pointer: string, value: Json) returns (v: Verdict)
    ensures v == FragmentVerdict(env, rootKey, pointer, value)
  {
    hide Eval, Located, Universe;
    if rootKey !in env.resources {
      return Invalid("", TargetUnavailable(rootKey));
    }
    var schema := env.resources[rootKey];
    var segments := Split(TrimStart(pointer, '/'), '/');
    TrimStartIsRedundant(pointer);
    assert segments[0..] == segments;
    for i := 0 to |segments|
      invariant WalkMembers(env.resources[rootKey], FragmentSegments(pointer)) == WalkMembers(schema, NonEmpty(segments[i..]))
    {
      assert segments[i..][1..] == segments[i + 1..];
      if segments[i] == "" {
        continue;
      }
      match schema.Get(SegmentName(segments[i])) {
        case None => return Invalid("", PointerUnresolved(pointer));
        case Some(child) => schema := child;
      }
    }
    FragmentIsLocated(env, rootKey, pointer);
    var context := new Context(env, {});
    v := context.Validate(value, schema, rootKey, "");
  }

  /* ---------- what a fragment pointer names ---------- */

  ghost predicate OnlySlashes(s: string) {
    forall i :: 0 <= i < |s| ==> s[i] == '/'
  }

  /** The pointer is these segments, none empty, with slashes before, between and behind them. */
  ghost predicate Slashed(pointer: string, raws: seq<string>)
    decreases |raws|
  {
    if raws == [] then OnlySlashes(pointer)
    else exists before, rest :: pointer == before + raws[0] + rest && FirstPart(before, raws[0], rest) && Slashed(rest, raws[1..])
  }

  ghost predicate FirstPart(before: string, raw: string, rest: string) {
    OnlySlashes(before) && raw != "" && '/' !in raw && (rest == "" || rest[0] == '/')
  }

  lemma SplitBehindSlash(s: string)
    requires s != "" && s[0] == '/'
    ensures FragmentSegments(s) == FragmentSegments(s[1..])
  {
    var rest := Split(s[1..], '/');
    assert ([""] + rest)[1..] == rest;
  }

  lemma {:induction false} SlashesSkipped(before: string, rest: string)
    requires OnlySlashes(before)
    ensures FragmentSegments(before + rest) == FragmentSegments(rest)
  {
    if before == "" {
      assert before + rest == rest;
    } else {
      assert (before + rest)[1..] == before[1..] + rest;
      SplitBehindSlash(before + rest);
      SlashesSkipped(before[1..], rest);
    }
  }

  lemma FirstSegmentOf(raw: string, rest: string)
    requires raw != "" && '/' !in raw && (rest == "" || rest[0] == '/')
    ensures FragmentSegments(raw + rest) == [raw] + FragmentSegments(rest)
  {
    SplitFirst(raw, rest, '/');
    if rest == "" {
      assert NonEmpty([raw]) == [raw] && FragmentSegments("") == [];
    } else {
      var behind := Split(rest[1..], '/');
      SplitBehindSlash(rest);
      assert ([raw] + behind)[1..] == behind;
    }
  }

  lemma {:induction false} SlashedIsRead(pointer: string, raws: seq<string>)
    requires Slashed(pointer, raws)
    ensures FragmentSegments(pointer) == raws
    decreases |raws|
  {
    if raws == [] {
      SlashesSkipped(pointer, "");
      assert pointer + "" == pointer && FragmentSegments("") == [];
    } else {
      var before, rest :| pointer == before + raws[0] + rest && FirstPart(before, raws[0], rest) && Slashed(rest, raws[1..]);
      assert pointer == before + (raws[0] + rest);
      SlashesSkipped(before, raws[0] + rest);
      FirstSegmentOf(raws[0], rest);
      SlashedIsRead(rest, raws[1..]);
    }
  }

  /** The first segment of a pointer, what stands before it and what behind. */
  lemma {:induction false} FirstCut(pointer: string) returns (before: string, raw: string, rest: string)
    ensures OnlySlashes(pointer) <==> raw == ""
    ensures raw != "" ==> pointer == before + raw + rest && FirstPart(before, raw, rest)
  {
    if pointer == "" {
      before, raw, rest := "", "", "";
    } else if pointer[0] == '/' {
      var b;
      b, raw, rest := FirstCut(pointer[1..]);
      before := ['/'] + b;
      assert pointer == ['/'] + pointer[1..];
      assert raw != "" ==> pointer == before + raw + rest;
      assert OnlySlashes(pointer[1..]) ==> OnlySlashes(pointer);
      assert OnlySlashes(pointer) ==> forall i :: 0 <= i < |pointer[1..]| ==> pointer[1..][i] == pointer[i + 1];
    } else {
      raw, rest := Leading(pointer);
      before := "";
      assert pointer == "" + raw + rest;
    }
  }

  lemma {:induction false} Leading(s: string) returns (raw: string, rest: string)
    ensures s == raw + rest && '/' !in raw && (rest == "" || rest[0] == '/')
    ensures s != "" && s[0] != '/' ==> raw != ""
  {
    if s == "" || s[0] == '/' {
      raw, rest := "", s;
    } else {
      var tail;
      tail, rest := Leading(s[1..]);
      raw := [s[0]] + tail;
      assert s == [s[0]] + s[1..];
    }
  }

  lemma {:induction false} ReadIsSlashed(pointer: string)
    ensures Slashed(pointer, FragmentSegments(pointer))
    decreases |pointer|
  {
    var before, raw, rest := FirstCut(pointer);
    if raw == "" {
      SlashesSkipped(pointer, "");
      assert pointer + "" == pointer && FragmentSegments("") == [];
    } else {
      assert pointer == before + (raw + rest);
      SlashesSkipped(before, raw + rest);
      FirstSegmentOf(raw, rest);
      ReadIsSlashed(rest);
      var raws := FragmentSegments(pointer);
      assert raws[0] == raw && raws[1..] == FragmentSegments(rest);
    }
  }

  /** The schema stands in the resource under the members that the segments spell. */
  ghost predicate FragmentOf(root: Json, pointer: string, schema: Json) {
    exists raws, names :: Slashed(pointer, raws) && SpelledBy(raws, names) && StandsAt(root, names, schema)
  }

  ghost predicate SpelledBy(raws: seq<string>, names: seq<string>) {
    |names| == |raws| && forall i :: 0 <= i < |raws| ==> names[i] == Unescaped(raws[i])
  }

  lemma FragmentMeans(root: Json, pointer: string, schema: Json)
    ensures WalkMembers(root, FragmentSegments(pointer)) == Some(schema) <==> FragmentOf(root, pointer, schema)
  {
    hide FragmentSegments, Slashed, WalkMembers, StandsAt, Unescaped;
    var raws := FragmentSegments(pointer);
    ReadIsSlashed(pointer);
    WalkStands(root, raws, schema);
    assert SpelledBy(raws, NamesIn(raws));
    if FragmentOf(root, pointer, schema) {
      var others, names :| Slashed(pointer, others) && SpelledBy(others, names) && StandsAt(root, names, schema);
      SlashedIsRead(pointer, others);
      assert names == NamesIn(raws);
    }
  }

  /**
   * Validation against a fragment, exactly: a missing resource or fragment is reported as such, and else the
   * value is held against the schema that stands at the pointer, with no active reference.
   */
  lemma FragmentExactly(env: Env, rootKey: string, pointer: string, value: Json, v: Verdict)
    ensures FragmentVerdict(env, rootKey, pointer, value) == v <==>
              if rootKey !in env.resources then v == Invalid("", TargetUnavailable(rootKey))
              else if !exists schema :: FragmentOf(env.resources[rootKey], pointer, schema) then v == Invalid("", PointerUnresolved(pointer))
              else exists schema :: FragmentOf(env.resources[rootKey], pointer, schema) && Located(env, schema, rootKey)
                                    && v == Eval(env, {}, value, schema, rootKey, "")
  {
    if rootKey in env.resources {
      forall schema
        ensures WalkMembers(env.resources[rootKey], FragmentSegments(pointer)) == Some(schema) <==> FragmentOf(env.resources[rootKey], pointer, schema)
      {
        FragmentMeans(env.resources[rootKey], pointer, schema);
      }
      if FragmentSchema(env, rootKey, pointer).Ok? {
        FragmentIsLocated(env, rootKey, pointer);
      }
    }
    hide Eval, Located, FragmentOf, WalkMembers, FragmentSegments;
  }
}
