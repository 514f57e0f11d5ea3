// The mtime-cached project configuration, and adding patterns to it.

module ConfigCache {
  import opened Wrappers

  type Root = string

  // ---------------------------------------------------------------- configuration files

  datatype JsonEntry = Text(text: string) | NotText

  /** The pattern field of an object, the other fields carried along. */
  datatype Content = NotJson | NotObject | Object(field: Option<Option<seq<JsonEntry>>>, others: string)

  /** A file as it lies on disk. */
  datatype File = File(mtime: int, content: Content)

  datatype Config = Config(includeIgnored: seq<string>, others: string)

  const EMPTY_CONFIG := Config([], "")

  /** White space as String.trim knows it. */
  predicate IsSpace(c: char) {
    || c == '\t' || c == '\n' || c == '\r' || c == ' '
    || c == '\U{0B}' || c == '\U{0C}' || c == '\U{A0}' || c == '\U{FEFF}' || c == '\U{1680}'
    || '\U{2000}' <= c <= '\U{200A}' || c == '\U{2028}' || c == '\U{2029}' || c == '\U{202F}'
    || c == '\U{205F}' || c == '\U{3000}'
  }

  function TrimLeft(s: string): string {
    if s != "" && IsSpace(s[0]) then TrimLeft(s[1..]) else s
  }

  function TrimRight(s: string): string {
    if s != "" && IsSpace(s[|s| - 1]) then TrimRight(s[..|s| - 1]) else s
  }

  function Trim(s: string): string { TrimRight(TrimLeft(s)) }

  predicate Blank(s: string) { Trim(s) == "" }

  /** The patterns that count: text, not blank, trimmed. */
  function Patterns(entries: seq<JsonEntry>): seq<string> {
    if entries == [] then []
    else
      var rest := Patterns(entries[1..]);
      if entries[0].Text? && !Blank(entries[0].text) then [Trim(entries[0].text)] + rest else rest
  }

  function FieldPatterns(c: Content): seq<string>
    requires c.Object?
  {
    match c.field
    case Some(Some(entries)) => Patterns(entries)
    case _ => []
  }

  /** Anything that is not an object of JSON gives the default. */
  function Parse(c: Content): Config {
    if c.Object? then Config(FieldPatterns(c), c.others) else EMPTY_CONFIG
  }

  method ExtractIncludeIgnored(field: Option<Option<seq<JsonEntry>>>) returns (out: seq<string>)
    ensures out == FieldPatterns(Object(field, ""))
  {
    if field.None? || field.value.None? {
      return [];
    }
    var raw := field.value.value;
    out := [];
    var k := 0;
    while k < |raw|
      invariant k <= |raw| && out + Patterns(raw[k..]) == Patterns(raw)
    {
      assert raw[k..][1..] == raw[k + 1..];
      if raw[k].Text? && !Blank(raw[k].text) {
        ghost var rest := Patterns(raw[k + 1..]);
        assert out + ([Trim(raw[k].text)] + rest) == (out + [Trim(raw[k].text)]) + rest;
        out := out + [Trim(raw[k].text)];
      }
      k := k + 1;
    }
    assert out + Patterns([]) == out;
  }

  // ---------------------------------------------------------------- the cache

  datatype Cached = Cached(mtime: int, config: Config)

  class Project {
    var disk: map<Root, File>
    var cache: map<Root, Cached>
    /** Every content a root's file has had, by its time stamp. */
    ghost var history: map<(Root, int), Content>

    constructor ()
      ensures Valid() && disk == map[] && history == map[]
    {
      disk, cache, history := map[], map[], map[];
    }

    /** What is on disk is in the history, and what is cached is the parse of something that was. */
    ghost predicate Valid()
      reads this
    {
      && (forall r :: r in disk ==> (r, disk[r].mtime) in history && history[(r, disk[r].mtime)] == disk[r].content)
      && (forall r :: r in cache ==>
            (r, cache[r].mtime) in history && cache[r].config == Parse(history[(r, cache[r].mtime)]))
    }

    /** A time stamp that has been seen before stands for the content it stood for then. */
    ghost predicate Stamps(r: Root, f: File)
      reads this
    {
      (r, f.mtime) in history ==> history[(r, f.mtime)] == f.content
    }

    /** The configuration in force: the parse of the file that is there. */
    function Current(r: Root): Config
      reads this
    {
      if r in disk then Parse(disk[r].content) else EMPTY_CONFIG
    }

    /** Somebody writes the file. */
    method Edit(r: Root, f: File)
      requires Valid() && Stamps(r, f)
      modifies this`disk, this`history
      ensures Valid() && disk == old(disk)[r := f] && history == old(history)[(r, f.mtime) := f.content]
    {
      disk := disk[r := f];
      history := history[(r, f.mtime) := f.content];
    }

    method Delete(r: Root)
      requires Valid()
      modifies this`disk
      ensures Valid() && disk == old(disk) - {r}
    {
      disk := disk - {r};
    }

    method Clear()
      requires Valid()
      modifies this`cache
      ensures Valid() && cache == map[]
    {
      cache := map[];
    }

    /** loadParsedConfig: whatever was cached, the result is the parse of the current file. */
    method Load(r: Root) returns (config: Config)
      requires Valid()
      modifies this`cache
      ensures Valid() && config == Current(r)
      ensures cache == if r !in disk then old(cache) - {r} else old(cache)[r := Cached(disk[r].mtime, config)]
    {
      if r !in disk {
        cache := cache - {r};
        return EMPTY_CONFIG;
      }
      var mtime := disk[r].mtime;
      if r in cache && cache[r].mtime == mtime {
        config := cache[r].config;
        assert cache[r := cache[r]] == cache;
        return;
      }
      config := Parse(disk[r].content);
      cache := cache[r := Cached(mtime, config)];
    }

    /** addIncludeIgnoredPatterns; `None` is the error for a file that is not JSON, which changes nothing. */
    method AddPatterns(r: Root, patterns: seq<string>, mtime: int) returns (added: Option<nat>)
      requires Valid()
      requires Stamps(r, File(mtime, Merged(OnDisk(r), patterns)))
      modifies this
      ensures Valid()
      ensures added == None <==> r in old(disk) && old(disk)[r].content.NotJson?
      ensures added == None ==> disk == old(disk) && cache == old(cache) && history == old(history)
      ensures added.Some? ==>
        && disk == old(disk)[r := File(mtime, Merged(old(OnDisk(r)), patterns))] && cache == map[]
        && history == old(history)[(r, mtime) := Merged(old(OnDisk(r)), patterns)]
        && added.value == |New(Existing(old(OnDisk(r))), patterns)|
    {
      var file := OnDisk(r);
      if file == NotJson {
        return None;
      }
      var existing := Existing(file);
      var merged, count := MergeNew(existing, patterns);
      var content := Object(Some(Some(Entries(merged))), if file.Object? then file.others else "");
      disk := disk[r := File(mtime, content)];
      history := history[(r, mtime) := content];
      cache := map[];
      added := Some(count);
    }

    /** The content that is there; a missing file counts as an object with no fields. */
    function OnDisk(r: Root): Content
      reads this
    {
      if r in disk then disk[r].content else Object(None, "")
    }
  }

  /** The loop over the patterns. */
  method MergeNew(existing: seq<string>, patterns: seq<string>) returns (merged: seq<string>, count: nat)
    ensures merged == existing + New(existing, patterns) && count == |New(existing, patterns)|
  {
    merged, count := existing, 0;
    var seen := set p | p in existing;
    var k := 0;
    while k < |patterns|
      invariant k <= |patterns|
      invariant seen == set p | p in merged
      invariant merged == existing + New(existing, patterns[..k]) && count == |New(existing, patterns[..k])|
    {
      assert patterns[..k + 1][..k] == patterns[..k];
      if patterns[k] !in seen {
        seen := seen + {patterns[k]};
        merged := merged + [patterns[k]];
        count := count + 1;
      }
      k := k + 1;
    }
    assert patterns[..k] == patterns;
  }

  /** The texts already listed, verbatim. */
  function Existing(c: Content): seq<string> {
    if c.Object? && c.field.Some? && c.field.value.Some? then Texts(c.field.value.value) else []
  }

  /** What is written back: every other field kept, the new patterns at the end. */
  function Merged(c: Content, patterns: seq<string>): Content {
    Object(Some(Some(Entries(Existing(c) + New(Existing(c), patterns)))), if c.Object? then c.others else "")
  }

  function Texts(entries: seq<JsonEntry>): seq<string> {
    if entries == [] then []
    else
      var rest := Texts(entries[1..]);
      if entries[0].Text? then [entries[0].text] + rest else rest
  }

  function Entries(texts: seq<string>): seq<JsonEntry> {
    seq(|texts|, k requires 0 <= k < |texts| => Text(texts[k]))
  }

  /** The patterns not yet listed, each once, in order. */
  function New(existing: seq<string>, patterns: seq<string>): seq<string>
    decreases |patterns|
  {
    if patterns == [] then []
    else
      var n := |patterns| - 1;
      var before := New(existing, patterns[..n]);
      if patterns[n] in existing || patterns[n] in before then before else before + [patterns[n]]
  }

  // ---------------------------------------------------------------- what adding achieves

  /** New patterns are distinct, and are exactly those not listed. */
  lemma {:induction false} NewMembers(existing: seq<string>, patterns: seq<string>)
    ensures forall p :: p in New(existing, patterns) <==> p in patterns && p !in existing
    ensures forall j, k :: 0 <= j < k < |New(existing, patterns)| ==> New(existing, patterns)[j] != New(existing, patterns)[k]
    decreases |patterns|
  {
    if patterns != [] {
      var n := |patterns| - 1;
      NewMembers(existing, patterns[..n]);
      assert patterns == patterns[..n] + [patterns[n]];
    }
  }

  /** They keep their order: pattern by pattern, one is added unless it is listed by then. */
  lemma {:induction false} NewInOrder(existing: seq<string>, p: string, rest: seq<string>)
    ensures New(existing, []) == []
    ensures New(existing, [p] + rest)
         == if p in existing then New(existing, rest) else [p] + New(existing + [p], rest)
    decreases |rest|
  {
    if rest == [] {
      assert [p] + rest == [p] && [p][..0] == [];
    } else {
      var n := |rest| - 1;
      NewInOrder(existing, p, rest[..n]);
      assert ([p] + rest)[..n + 1] == [p] + rest[..n];
    }
  }

  lemma {:induction false} PatternsOf(entries: seq<JsonEntry>, p: string)
    requires Text(p) in entries && !Blank(p)
    ensures Trim(p) in Patterns(entries)
    decreases |entries|
  {
    if entries[0] != Text(p) {
      assert Text(p) in entries[1..];
      PatternsOf(entries[1..], p);
    }
  }

  lemma {:induction false} TextsOfEntries(texts: seq<string>)
    ensures Texts(Entries(texts)) == texts
    decreases |texts|
  {
    if texts != [] {
      assert Entries(texts)[1..] == Entries(texts[1..]);
      TextsOfEntries(texts[1..]);
      assert texts == [texts[0]] + texts[1..];
    }
  }

  lemma HasMember(s: seq<string>)
    ensures s != [] ==> exists p :: p in s
  {
    if s != [] {
      assert s[0] in s;
    }
  }

  /** After adding, every pattern is listed, and nothing is left to add. */
  lemma MergedHasAll(c: Content, patterns: seq<string>)
    ensures Existing(Merged(c, patterns)) == Existing(c) + New(Existing(c), patterns)
    ensures Merged(c, patterns).Object? && Merged(c, patterns).others == if c.Object? then c.others else ""
    ensures New(Existing(Merged(c, patterns)), patterns) == []
    ensures forall p :: p in patterns && !Blank(p) ==> Trim(p) in Parse(Merged(c, patterns)).includeIgnored
  {
    hide New, Texts, Patterns, Trim, Blank;
    var all := Existing(c) + New(Existing(c), patterns);
    TextsOfEntries(all);
    NewMembers(Existing(c), patterns);
    NewMembers(all, patterns);
    var left := New(all, patterns);
    assert forall p :: p in patterns ==> p in all;
    assert forall p :: p !in left;
    HasMember(left);
    forall p | p in patterns && !Blank(p) ensures Trim(p) in Patterns(Entries(all)) {
      var k :| 0 <= k < |all| && all[k] == p;
      assert Entries(all)[k] == Text(p);
      PatternsOf(Entries(all), p);
    }
  }

  /** The next load has every added pattern that is not blank, and adding again adds nothing. */
  method AddThenLoad(project: Project, r: Root, patterns: seq<string>, mtime: int, later: int)
    returns (first: nat, config: Config, again: nat)
    requires project.Valid() && !(r in project.disk && project.disk[r].content.NotJson?)
    requires project.Stamps(r, File(mtime, Merged(project.OnDisk(r), patterns)))
    requires project.Stamps(r, File(later, Merged(project.OnDisk(r), patterns)))
    modifies project
    ensures first == |New(Existing(old(project.OnDisk(r))), patterns)| && again == 0
    ensures forall p :: p in patterns && !Blank(p) ==> Trim(p) in config.includeIgnored
  {
    hide New, Parse, Existing, Merged, Trim, Blank;
    MergedHasAll(project.OnDisk(r), patterns);
    MergedAgain(project.OnDisk(r), patterns);
    var added := project.AddPatterns(r, patterns, mtime);
    first := added.value;
    config := project.Load(r);
    var second := project.AddPatterns(r, patterns, later);
    again := second.value;
  }

  /** Merging a second time writes the same content. */
  lemma MergedAgain(c: Content, patterns: seq<string>)
    ensures Merged(c, patterns).Object? && Merged(Merged(c, patterns), patterns) == Merged(c, patterns)
  {
    hide New, Existing, Parse;
    MergedHasAll(c, patterns);
    var all := Existing(c) + New(Existing(c), patterns);
    assert all + [] == all;
  }

  /** A count of distinct new patterns: as many as the set difference has members. */
  lemma {:induction false} NewIsSetDifference(existing: seq<string>, patterns: seq<string>)
    ensures |New(existing, patterns)| == |(set p | p in patterns) - (set p | p in existing)|
    decreases |patterns|
  {
    var known := set p | p in existing;
    if patterns == [] {
      assert (set p | p in patterns) - known == {};
    } else {
      var n := |patterns| - 1;
      NewIsSetDifference(existing, patterns[..n]);
      NewMembers(existing, patterns[..n]);
      assert patterns == patterns[..n] + [patterns[n]];
      var before := (set p | p in patterns[..n]) - known;
      var after := (set p | p in patterns) - known;
      if patterns[n] in existing || patterns[n] in before {
        assert after == before;
      } else {
        assert after == before + {patterns[n]};
      }
    }
  }

  // ---------------------------------------------------------------- what counts as a pattern

  /** White space and line terminators of ECMAScript, by code point. */
  predicate WhiteSpace(cp: int) {
    || 0x09 <= cp <= 0x0D || cp == 0x20 || cp == 0xA0 || cp == 0x1680 || 0x2000 <= cp <= 0x200A
    || cp == 0x2028 || cp == 0x2029 || cp == 0x202F || cp == 0x205F || cp == 0x3000 || cp == 0xFEFF
  }

  predicate AllWhite(s: string) { forall k :: 0 <= k < |s| ==> WhiteSpace(s[k] as int) }

  lemma {:induction false} TrimLeftExact(s: string)
    ensures var t := TrimLeft(s);
            && |t| <= |s| && t == s[|s| - |t|..] && AllWhite(s[..|s| - |t|])
            && (t != "" ==> !WhiteSpace(t[0] as int))
    decreases |s|
  {
    if s != "" && IsSpace(s[0]) {
      TrimLeftExact(s[1..]);
      var n := |s| - |TrimLeft(s)|;
      assert s[1..][n - 1..] == s[n..];
      forall k | 0 <= k < n ensures WhiteSpace(s[..n][k] as int) {
        assert k > 0 ==> s[..n][k] == s[1..][..n - 1][k - 1];
      }
    } else {
      assert s[0..] == s;
    }
  }

  lemma {:induction false} TrimRightExact(s: string)
    ensures var t := TrimRight(s);
            && |t| <= |s| && t == s[..|t|] && AllWhite(s[|t|..])
            && (t != "" ==> !WhiteSpace(t[|t| - 1] as int))
    decreases |s|
  {
    if s != "" && IsSpace(s[|s| - 1]) {
      var n := |s| - 1;
      TrimRightExact(s[..n]);
      var t := TrimRight(s);
      assert s[..n][..|t|] == s[..|t|];
      forall k | 0 <= k < |s[|t|..]| ensures WhiteSpace(s[|t|..][k] as int) {
        assert |t| + k < n ==> s[|t|..][k] == s[..n][|t|..][k];
      }
    } else {
      assert s[..|s|] == s;
    }
  }

  /** Trimming takes white space from both ends, all of it and nothing else. */
  lemma TrimExact(s: string)
    ensures var t := Trim(s);
            && (t != "" ==> !WhiteSpace(t[0] as int) && !WhiteSpace(t[|t| - 1] as int))
            && (t == "" <==> AllWhite(s))
            && exists i :: 0 <= i && i + |t| <= |s| && s[i..i + |t|] == t && AllWhite(s[..i]) && AllWhite(s[i + |t|..])
  {
    hide TrimLeft, TrimRight, WhiteSpace;
    TrimLeftExact(s);
    var u := TrimLeft(s);
    TrimRightExact(u);
    var t, i := TrimRight(u), |s| - |u|;
    assert s[i..][|t|..] == s[i + |t|..] && s[i..][..|t|] == s[i..i + |t|];
    assert t != "" ==> t[0] == u[0];
    if t == "" {
      assert s[..i] == s;
    } else {
      assert s[i] == t[0];
    }
    assert s[i..i + |t|] == t && AllWhite(s[..i]) && AllWhite(s[i + |t|..]);
  }

  /** The patterns are, in order, the texts that are not all white space, trimmed; no other entry gives any. */
  lemma PatternsStep(e: JsonEntry, rest: seq<JsonEntry>)
    ensures Patterns([]) == []
    ensures Patterns([e] + rest)
         == (if e.Text? && !AllWhite(e.text) then [Trim(e.text)] else []) + Patterns(rest)
  {
    hide Trim;
    assert ([e] + rest)[1..] == rest;
    if e.Text? {
      TrimExact(e.text);
    }
    assert [] + Patterns(rest) == Patterns(rest);
  }

  /** A file that is no object of JSON counts as no configuration; any other field value as no patterns. */
  lemma ParseExact(c: Content)
    ensures Parse(c) == if c.Object? && c.field.Some? && c.field.value.Some? then Config(Patterns(c.field.value.value), c.others)
                        else if c.Object? then Config([], c.others)
                        else Config([], "")
  {}
}
