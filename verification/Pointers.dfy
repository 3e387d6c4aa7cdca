/**
 * Pointers and references as texts: the segments of a pointer and the names they spell (section 4 of RFC 6901),
 * and the two parts of a reference.
 */
module Pointers {
  import opened Prelude
  import opened Strings

  /** The member name that a raw segment spells: `~1` is a slash, `~0` a tilde, all else stands for itself. */
  function Unescaped(raw: string): string
    decreases |raw|
  {
    if raw == "" then ""
    else if StartsWith(raw, "~1") then "/" + Unescaped(raw[2..])
    else if StartsWith(raw, "~0") then "~" + Unescaped(raw[2..])
    else raw[..1] + Unescaped(raw[1..])
  }

  /** A pointer with these segments. */
  function PointerText(raws: seq<string>): string {
    if raws == [] then "" else "/" + raws[0] + PointerText(raws[1..])
  }

  ghost predicate Plain(raws: seq<string>) {
    forall i :: 0 <= i < |raws| ==> '/' !in raws[i]
  }

  /** The resource and the fragment of a reference: what stands before and behind the first `#`. */
  ghost predicate Parts(reference: string, resource: string, fragment: string) {
    '#' !in resource && (reference == resource + "#" + fragment || (reference == resource && fragment == ""))
  }

  function Copies(n: nat): string {
    if n == 0 then "" else Copies(n - 1) + ".json"
  }

  /** `name` is `resource` without any `.json` at its end. */
  ghost predicate Stem(resource: string, name: string) {
    !EndsWith(name, ".json") && exists n: nat :: resource == name + Copies(n)
  }

  lemma {:induction false} FirstReplaced(s: string)
    requires s != "" && s[0] != '0'
    ensures var r := ReplacePair(s, '~', '1', '/'); r != "" && r[0] != '0'
  {
  }

  /** The two replacements of the program, one after the other, read the escapes. */
  lemma {:induction false} SegmentSpells(raw: string)
    ensures SegmentName(raw) == Unescaped(raw)
    decreases |raw|
  {
    if raw == "" {
    } else if StartsWith(raw, "~1") {
      SegmentSpells(raw[2..]);
    } else if StartsWith(raw, "~0") {
      SegmentSpells(raw[2..]);
      var rest := ReplacePair(raw[2..], '~', '1', '/');
      assert raw[1..][1..] == raw[2..];
      assert ReplacePair(raw, '~', '1', '/') == "~" + ("0" + rest) == "~0" + rest;
      assert ("~0" + rest)[2..] == rest;
    } else {
      SegmentSpells(raw[1..]);
      var rest := ReplacePair(raw[1..], '~', '1', '/');
      var first := ReplacePair(raw, '~', '1', '/');
      assert first == [raw[0]] + rest && first[1..] == rest;
      if raw[0] == '~' && |raw| > 1 {
        FirstReplaced(raw[1..]);
      }
    }
  }

  lemma {:induction false} SplitIsPlain(s: string)
    ensures Plain(Split(s, '/')) && PointerText(Split(s, '/')) == "/" + s
  {
    if s != "" {
      SplitIsPlain(s[1..]);
      var rest := Split(s[1..], '/');
      if s[0] == '/' {
        assert ([""] + rest)[1..] == rest;
        assert s == "/" + s[1..];
      } else {
        assert s == [s[0]] + s[1..];
        LongerHead(s[0], s[1..], rest);
      }
    }
  }

  lemma FirstSegment(raws: seq<string>)
    requires raws != []
    ensures PointerText(raws) == "/" + raws[0] + PointerText(raws[1..])
  {
  }

  lemma Regroup(c: char, first: string, below: string, s: string)
    requires "/" + first + below == "/" + s
    ensures "/" + ([c] + first) + below == "/" + ([c] + s)
  {
    assert ("/" + first + below)[1..] == first + below && ("/" + s)[1..] == s;
    assert [c] + first + below == [c] + (first + below);
  }

  lemma LongerHead(c: char, s: string, rest: seq<string>)
    requires rest != [] && Plain(rest) && PointerText(rest) == "/" + s && c != '/'
    ensures var all := [[c] + rest[0]] + rest[1..]; Plain(all) && PointerText(all) == "/" + ([c] + s)
  {
    hide PointerText, Plain;
    var all := [[c] + rest[0]] + rest[1..];
    FirstSegment(rest);
    FirstSegment(all);
    Regroup(c, rest[0], PointerText(rest[1..]), s);
    HeadIsPlain(c, rest);
    assert all[1..] == rest[1..] && all[0] == [c] + rest[0];
  }

  lemma HeadIsPlain(c: char, rest: seq<string>)
    requires rest != [] && Plain(rest) && c != '/'
    ensures Plain([[c] + rest[0]] + rest[1..])
  {
  }

  /** A pointer is split into its own segments. */
  lemma {:induction false} SplitPointer(raws: seq<string>)
    requires raws != [] && Plain(raws)
    ensures PointerText(raws) != "" && PointerText(raws)[0] == '/' && Split(PointerText(raws)[1..], '/') == raws
  {
    assert PointerText(raws)[1..] == raws[0] + PointerText(raws[1..]);
    if |raws| > 1 {
      assert forall i :: 0 <= i < |raws| - 1 ==> raws[1..][i] == raws[i + 1];
      SplitPointer(raws[1..]);
      SplitFirst(raws[0], PointerText(raws[1..]), '/');
    } else {
      assert raws[0] + "" == raws[0] && raws == [raws[0]];
      SplitFirst(raws[0], "", '/');
    }
  }

  lemma FirstMark(a: string, x: string, b: string, y: string)
    requires '#' !in a && '#' !in b && a + "#" + x == b + "#" + y
    ensures a == b && x == y
  {
    var s, t := a + "#" + x, b + "#" + y;
    assert s[|a|] == '#' && t[|b|] == '#';
    assert s[..|a|] == a && t[..|b|] == b && s[|a| + 1..] == x && t[|b| + 1..] == y;
  }

  function ResourceOf(reference: string): string {
    match SplitOnce(reference, '#') case Some(parts) => parts.0 case None => reference
  }

  function FragmentOf(reference: string): string {
    match SplitOnce(reference, '#') case Some(parts) => parts.1 case None => ""
  }

  /** The parts of a reference are those that the program splits it into. */
  lemma PartsOf(reference: string, resource: string, fragment: string)
    ensures Parts(reference, resource, fragment) <==> resource == ResourceOf(reference) && fragment == FragmentOf(reference)
  {
    SplitsAtFirst(reference, '#');
    if Parts(reference, resource, fragment) {
      if reference == resource + "#" + fragment {
        assert reference[|resource|] == '#';
        FirstMark(resource, fragment, SplitOnce(reference, '#').value.0, SplitOnce(reference, '#').value.1);
      }
    }
  }

  lemma StemOfMore(resource: string, name: string)
    requires Stem(resource, name)
    ensures Stem(resource + ".json", name)
  {
    hide EndsWith;
    var n: nat :| resource == name + Copies(n);
    assert resource + ".json" == name + (Copies(n) + ".json");
    assert Copies(n + 1) == Copies(n) + ".json";
  }

  lemma {:induction false} TrimmedIsStem(resource: string)
    ensures Stem(resource, TrimEnd(resource, ".json"))
    decreases |resource|
  {
    if EndsWith(resource, ".json") {
      var shorter := resource[..|resource| - 5];
      TrimmedIsStem(shorter);
      StemOfMore(shorter, TrimEnd(shorter, ".json"));
      assert resource == shorter + ".json";
    } else {
      assert resource == resource + Copies(0);
    }
  }

  lemma {:induction false} StemIsTrimmed(name: string, n: nat)
    requires !EndsWith(name, ".json")
    ensures TrimEnd(name + Copies(n), ".json") == name
  {
    var resource := name + Copies(n);
    if n > 0 {
      StemIsTrimmed(name, n - 1);
      assert resource == (name + Copies(n - 1)) + ".json";
      assert resource[..|resource| - 5] == name + Copies(n - 1) && resource[|resource| - 5..] == ".json";
    } else {
      assert resource == name;
    }
  }

  lemma StemMeans(resource: string, name: string)
    ensures Stem(resource, name) <==> name == TrimEnd(resource, ".json")
  {
    TrimmedIsStem(resource);
    if Stem(resource, name) {
      var n: nat :| resource == name + Copies(n);
      StemIsTrimmed(name, n);
    }
  }

  /* ---------- escaping ---------- */

  /** The spelling of a member name. */
  function Escaped(name: string): string {
    if name == "" then ""
    else (if name[0] == '~' then "~0" else if name[0] == '/' then "~1" else name[..1]) + Escaped(name[1..])
  }

  /** Every name has one spelling, which has no slash and reads back as the name. */
  lemma {:induction false} EscapedReads(name: string)
    ensures '/' !in Escaped(name) && Unescaped(Escaped(name)) == name
  {
    if name != "" {
      EscapedReads(name[1..]);
      var rest := Escaped(name[1..]);
      var all := Escaped(name);
      if name[0] == '~' || name[0] == '/' {
        assert all[2..] == rest;
        assert name == [name[0]] + name[1..];
      } else {
        assert all == [name[0]] + rest && all[1..] == rest;
        assert name == [name[0]] + name[1..];
      }
    }
  }
}
