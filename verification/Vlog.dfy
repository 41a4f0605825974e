/** The per-site cache of VLOG levels and the growing list of module patterns behind it. */
module Vlog {
  import opened Glob
  import opened Lists

  /** VModuleInfo: never removed, and never changed but for its level. */
  class ModuleInfo {
    const pattern: string
    var level: int

    constructor (pattern: string, level: int)
      ensures this.pattern == pattern && this.level == level
    {
      this.pattern, this.level := pattern, level;
    }
  }

  /** What SiteFlag.level points at: nothing yet, FLAGS_v, or the level of a module entry. */
  datatype LevelRef = Unset | Default | Entry(info: ModuleInfo)

  /** SiteFlag: the cache of one VLOG statement in the file `fname`. */
  class SiteFlag {
    const fname: string
    var level: LevelRef
    var baseName: Option<string>

    constructor (fname: string)
      ensures this.fname == fname && level == Unset && baseName == None
    {
      this.fname, level, baseName := fname, Unset, None;
    }
  }

  // ---------- file names ----------

  /** The part behind the last '/'. */
  function AfterSlash(s: string): (r: string)
    ensures '/' !in r && |r| <= |s| && r == s[|s| - |r|..]
    ensures |r| < |s| ==> s[|s| - |r| - 1] == '/'
  {
    if s == "" then "" else
    var r := AfterSlash(s[1..]);
    if |r| == |s| - 1 && s[0] != '/' then s else r
  }

  /** The part before the first '.'. */
  function BeforeDot(s: string): (r: string)
    ensures '.' !in r && r <= s && (|r| < |s| ==> s[|r|] == '.')
  {
    if s == "" || s[0] == '.' then "" else [s[0]] + BeforeDot(s[1..])
  }

  function TrimInl(s: string): (r: string)
    ensures s == r || s == r + "-inl"
  {
    if |s| >= 4 && s[|s| - 4..] == "-inl" then s[..|s| - 4] else s
  }

  /** The name that patterns are matched against. */
  function BaseName(fname: string): string { TrimInl(BeforeDot(AfterSlash(fname))) }

  /** Of a path, only the stem counts, without a trailing "-inl": the name of `dir/foo.cc` and of
      `dir/foo-inl.h` is `foo`. */
  lemma BaseNameOfPath(dir: string, stem: string, inl: string, ext: string)
    requires '/' !in stem && '.' !in stem && '/' !in ext && (ext == "" || ext[0] == '.')
    requires inl == "-inl" || (inl == "" && !EndsInInl(stem))
    ensures BaseName(stem + inl + ext) == stem
    ensures BaseName(dir + "/" + (stem + inl + ext)) == stem
  {
    TrimInlOf(stem, inl);
    assert '/' !in stem + inl + ext && '.' !in stem + inl && "" + (stem + inl + ext) == stem + inl + ext;
    hide AfterSlash, BeforeDot, TrimInl;
    BeforeDotOf(stem + inl, ext);
    AfterSlashOf("", stem + inl + ext);
    AfterSlashOf(dir + "/", stem + inl + ext);
  }

  lemma TrimInlOf(stem: string, inl: string)
    requires inl == "-inl" || (inl == "" && !EndsInInl(stem))
    ensures TrimInl(stem + inl) == stem
  {
    if inl == "" {
      assert stem + inl == stem;
    } else {
      assert (stem + "-inl")[|stem|..] == "-inl";
    }
  }

  predicate EndsInInl(s: string) { |s| >= 4 && s[|s| - 4..] == "-inl" }

  lemma {:induction false} AfterSlashOf(dir: string, name: string)
    requires '/' !in name && (dir == "" || dir[|dir| - 1] == '/')
    ensures AfterSlash(dir + name) == name
    decreases |dir|
  {
    if dir == "" {
      assert dir + name == name;
      NoSlash(name);
    } else {
      assert (dir + name)[1..] == dir[1..] + name;
      AfterSlashOf(dir[1..], name);
    }
  }

  lemma {:induction false} NoSlash(name: string)
    requires '/' !in name
    ensures AfterSlash(name) == name
    decreases |name|
  {
    if name != "" { NoSlash(name[1..]); }
  }

  lemma {:induction false} BeforeDotOf(stem: string, ext: string)
    requires '.' !in stem && (ext == "" || ext[0] == '.')
    ensures BeforeDot(stem + ext) == stem
    decreases |stem|
  {
    if stem == "" {
      assert stem + ext == ext;
    } else {
      assert (stem + ext)[1..] == stem[1..] + ext;
      BeforeDotOf(stem[1..], ext);
    }
  }

  // ---------- the --vmodule flag ----------

  function Find(s: string, c: char): (r: Option<nat>)
    ensures r.None? ==> c !in s
    ensures r.Some? ==> r.value < |s| && s[r.value] == c && c !in s[..r.value]
  {
    if s == "" then None
    else if s[0] == c then Some(0)
    else match Find(s[1..], c) case None => None case Some(k) => Some(k + 1)
  }

  /** The entry at the beginning of the flag, with its '=' at e.  `scan` stands for sscanf with "=%d"; an
      entry that it does not accept is skipped. */
  function FirstEntry(flag: string, e: nat, scan: string -> Option<int>): seq<(string, int)>
    requires e < |flag|
  {
    var level := scan(flag[e..]);
    if level.Some? then [(flag[..e], level.value)] else []
  }

  /** The flag behind the entry, or nothing if no ',' follows. */
  function OtherEntries(flag: string, e: nat): (r: string)
    requires e < |flag|
    ensures |r| < |flag|
  {
    match Find(flag[e..], ',')
    case None => ""
    case Some(c) => flag[e + c + 1..]
  }

  /** The <pattern>=<level> entries of the flag. */
  function Entries(flag: string, scan: string -> Option<int>): seq<(string, int)>
    decreases |flag|
  {
    match Find(flag, '=')
    case None => []
    case Some(e) => FirstEntry(flag, e, scan) + Entries(OtherEntries(flag, e), scan)
  }

  lemma EntriesStep(flag: string, scan: string -> Option<int>)
    ensures match Find(flag, '=')
      case None => Entries(flag, scan) == []
      case Some(e) => Entries(flag, scan) == FirstEntry(flag, e, scan) + Entries(OtherEntries(flag, e), scan)
  {
    hide Find, FirstEntry, OtherEntries;
  }

  /** One <pattern>=<level> piece of a flag, and what sscanf makes of its level. */
  datatype Piece = Piece(pattern: string, number: string, level: Option<int>)

  /** The text of a flag: its pieces with commas in between. */
  function FlagText(pieces: seq<Piece>): string
    decreases |pieces|, 0
  {
    if pieces == [] then "" else pieces[0].pattern + "=" + pieces[0].number + FlagTail(pieces[1..])
  }

  function FlagTail(pieces: seq<Piece>): string
    decreases |pieces|, 1
  {
    if pieces == [] then "" else "," + FlagText(pieces)
  }

  /** What the pieces mean. */
  function Meant(pieces: seq<Piece>): seq<(string, int)>
  {
    if pieces == [] then []
    else (if pieces[0].level.Some? then [(pieces[0].pattern, pieces[0].level.value)] else []) + Meant(pieces[1..])
  }

  /** sscanf reads the number of a piece, or fails on it, whatever follows the comma. */
  ghost predicate Scanned(scan: string -> Option<int>, p: Piece)
  {
    && '=' !in p.pattern && ',' !in p.number
    && forall tail: string :: tail == "" || tail[0] == ',' ==> scan("=" + p.number + tail) == p.level
  }

  lemma FirstOf(s: string, c: char, t: string)
    requires c !in s
    ensures Find(s + [c] + t, c) == Some(|s|)
  {
    var u := s + [c] + t;
    assert u[|s|] == c && u[..|s|] == s;
  }

  /** Every flag that is made of such pieces gives exactly what they mean, in their order. */
  lemma {:induction false} FlagMeans(pieces: seq<Piece>, scan: string -> Option<int>)
    requires forall p :: p in pieces ==> Scanned(scan, p)
    ensures Entries(FlagText(pieces), scan) == Meant(pieces)
    decreases |pieces|
  {
    hide Find, Entries, FirstEntry, OtherEntries, Scanned;
    EntriesStep(FlagText(pieces), scan);
    if pieces == [] {
      NothingFound("", '=');
    } else {
      assert pieces[0] in pieces;
      assert forall p :: p in pieces[1..] ==> p in pieces;
      FirstPiece(FlagText(pieces), pieces[0], pieces[1..], scan);
      FlagMeans(pieces[1..], scan);
    }
  }

  lemma FirstPiece(text: string, p: Piece, more: seq<Piece>, scan: string -> Option<int>)
    requires Scanned(scan, p) && text == p.pattern + "=" + p.number + FlagTail(more)
    ensures Find(text, '=') == Some(|p.pattern|) && OtherEntries(text, |p.pattern|) == FlagText(more)
    ensures FirstEntry(text, |p.pattern|, scan) == Meant([p])
  {
    var e, tail := |p.pattern|, FlagTail(more);
    PieceParts(text, p, tail);
    TailStarts(more);
    assert scan(text[e..]) == p.level;
    hide Find, FlagTail, Scanned;
    RestOfFlag(text[e..], p.number, more);
  }

  lemma TailStarts(more: seq<Piece>)
    ensures FlagTail(more) == "" || FlagTail(more)[0] == ','
  {}

  lemma PieceParts(text: string, p: Piece, tail: string)
    requires '=' !in p.pattern && text == p.pattern + "=" + p.number + tail
    ensures Find(text, '=') == Some(|p.pattern|)
    ensures text[..|p.pattern|] == p.pattern && text[|p.pattern|..] == "=" + p.number + tail
  {
    hide Find;
    assert text == p.pattern + "=" + (p.number + tail);
    FirstOf(p.pattern, '=', p.number + tail);
  }

  lemma RestOfFlag(sep: string, number: string, more: seq<Piece>)
    requires ',' !in number && sep == "=" + number + FlagTail(more)
    ensures match Find(sep, ',')
      case None => FlagText(more) == ""
      case Some(c) => sep[c + 1..] == FlagText(more)
  {
    hide Find;
    if more != [] {
      assert sep == "=" + number + "," + FlagText(more);
      FirstOf("=" + number, ',', FlagText(more));
    } else {
      assert sep == "=" + number;
      NothingFound(sep, ',');
    }
  }

  lemma NothingFound(s: string, c: char)
    requires c !in s
    ensures Find(s, c) == None
  {}

  /** A module entry decides for a name. */
  predicate Decides(info: ModuleInfo, name: string) { SafeMatch(info.pattern, name) }

  class Vlog {
    /** FLAGS_v, FLAGS_vmodule, and sscanf. */
    const vmodule: string
    const scan: string -> Option<int>
    var v: int

    var inited: bool
    var modules: seq<ModuleInfo>
    var cached: seq<SiteFlag>
    /** All sites whose level was ever set. */
    ghost var sites: set<SiteFlag>

    constructor (v: int, vmodule: string, scan: string -> Option<int>)
      ensures Valid() && sites == {} && modules == [] && cached == [] && !inited
      ensures this.v == v && this.vmodule == vmodule && this.scan == scan
    {
      this.v, this.vmodule, this.scan := v, vmodule, scan;
      inited, modules, cached, sites := false, [], [], {};
    }

    ghost predicate SomeDecides(name: string)
      reads this
    {
      exists i :: 0 <= i < |modules| && Decides(modules[i], name)
    }

    /** A site points at the default exactly when no pattern matches its base name, and otherwise at an
        entry of the list whose pattern does. */
    ghost predicate Agrees(s: SiteFlag)
      reads this, s
    {
      match s.level
      case Unset => false
      case Default => !SomeDecides(BaseName(s.fname)) && s.baseName == Some(BaseName(s.fname))
      case Entry(info) => info in modules && Decides(info, BaseName(s.fname))
    }

    ghost predicate Valid()
      reads this, sites, set s | s in cached
    {
      && (forall s :: s in sites ==> Agrees(s))
      && Distinct(cached)
      && (forall s :: s in cached ==> s in sites && s.level == Default)
      && (forall s :: s in sites && s.level == Default ==> s in cached)
      && (!inited ==> sites == {})
    }

    /** The first entry that decides for a name. */
    static function FirstFor(list: seq<ModuleInfo>, name: string): (r: LevelRef)
      ensures r == Default ==> forall i :: 0 <= i < |list| ==> !Decides(list[i], name)
      ensures r != Default ==> r.Entry? && exists i :: IsFirst(list, i, name) && r.info == list[i]
    {
      if list == [] then Default
      else if Decides(list[0], name) then
        assert IsFirst(list, 0, name);
        Entry(list[0])
      else
        var r := FirstFor(list[1..], name);
        FirstBehind(list, name, r);
        r
    }

    /** The entry i decides for the name, and no earlier one does. */
    static ghost predicate IsFirst(list: seq<ModuleInfo>, i: int, name: string)
    {
      0 <= i < |list| && Decides(list[i], name) && forall j :: 0 <= j < i ==> !Decides(list[j], name)
    }

    static lemma FirstBehind(list: seq<ModuleInfo>, name: string, r: LevelRef)
      requires list != [] && !Decides(list[0], name)
      requires r.Entry? ==> exists i :: IsFirst(list[1..], i, name) && r.info == list[1..][i]
      ensures r.Entry? ==> exists i :: IsFirst(list, i, name) && r.info == list[i]
    {
      if r.Entry? {
        var i :| IsFirst(list[1..], i, name) && r.info == list[1..][i];
        assert IsFirst(list, i + 1, name);
      }
    }

    static lemma FirstIs(list: seq<ModuleInfo>, name: string)
      ensures forall i :: IsFirst(list, i, name) ==> FirstFor(list, name) == Entry(list[i])
      ensures (forall m <- list :: !Decides(m, name)) ==> FirstFor(list, name) == Default
    {}

    function Value(ref: LevelRef): int
      reads this, if ref.Entry? then {ref.info} else {}
    {
      if ref.Entry? then ref.info.level else v
    }

    /** The loop of VLOG2Initializer() over the flag. */
    method ParseFlag() returns (added: seq<ModuleInfo>)
      ensures forall m :: m in added ==> fresh(m)
      ensures |added| == |Entries(vmodule, scan)|
      ensures forall k :: 0 <= k < |added| ==> added[k].pattern == Entries(vmodule, scan)[k].0
      ensures forall k :: 0 <= k < |added| ==> added[k].level == Entries(vmodule, scan)[k].1
    {
      hide Find, Entries;
      var rest := vmodule;
      added := [];
      ghost var done: seq<(string, int)> := [];
      var eq := Find(rest, '=');
      while eq.Some?
        invariant eq == Find(rest, '=') && Entries(vmodule, scan) == done + Entries(rest, scan)
        invariant |added| == |done| && forall m :: m in added ==> fresh(m)
        invariant forall k :: 0 <= k < |added| ==> added[k].pattern == done[k].0 && added[k].level == done[k].1
        decreases |rest|
      {
        var sep := rest[eq.value..];
        var level := scan(sep);
        EntriesStep(rest, scan);
        ghost var entry := FirstEntry(rest, eq.value, scan);
        ghost var others := Entries(OtherEntries(rest, eq.value), scan);
        assert done + (entry + others) == (done + entry) + others;
        done := done + entry;
        if level.Some? {
          var info := new ModuleInfo(rest[..eq.value], level.value);
          added := added + [info];
        }
        var comma := Find(sep, ',');
        rest := if comma.None? then "" else rest[eq.value + comma.value + 1..];
        eq := Find(rest, '=');
      }
      EntriesStep(rest, scan);
      assert done + [] == done;
    }

    /** VLOG2Initializer(): the entries of the flag go to the head of the list. */
    method Initialize() returns (added: seq<ModuleInfo>)
      requires Valid() && !inited
      modifies this`inited, this`modules
      ensures Valid() && inited
      ensures modules == added + old(modules) && forall m :: m in added ==> fresh(m)
      ensures |added| == |Entries(vmodule, scan)|
      ensures forall k :: 0 <= k < |added| ==> added[k].pattern == Entries(vmodule, scan)[k].0
      ensures forall k :: 0 <= k < |added| ==> added[k].level == Entries(vmodule, scan)[k].1
    {
      added := ParseFlag();
      modules := added + modules;
      inited := true;
    }

    /** InitVLOG3__() */
    method InitVLOG3(site: SiteFlag, verboseLevel: int) returns (on: bool)
      requires Valid() && (site !in sites ==> site.baseName == None)
      modifies this, site
      ensures Valid() && inited && v == old(v)
      ensures site.level == if old(inited) then FirstFor(modules, BaseName(site.fname)) else old(site.level)
      ensures sites == if old(inited) then old(sites) + {site} else old(sites)
      ensures old(inited) ==> modules == old(modules)
      ensures forall m :: m in modules ==> m in old(modules) || fresh(m)
      ensures !old(inited) ==> site.baseName == old(site.baseName)
      ensures forall i :: IsFirst(modules, i, BaseName(site.fname)) ==> (on <==> modules[i].level >= verboseLevel)
      ensures (forall m <- modules :: !Decides(m, BaseName(site.fname))) ==> (on <==> v >= verboseLevel)
    {
      hide BaseName, Decides, Vlog.FirstFor, Vlog.Valid, Vlog.IsFirst;
      var readVmoduleFlag := inited;
      if !readVmoduleFlag {
        var _ := Initialize();
      }
      var base := BaseName(site.fname);
      var value := FirstDeciding(base);
      on := Value(value) >= verboseLevel;
      FirstIs(modules, base);
      if readVmoduleFlag {
        CacheLevel(site, value);
      }
    }

    /** The part of InitVLOG3__() that remembers the level. */
    method CacheLevel(site: SiteFlag, value: LevelRef)
      requires Valid() && inited && (site !in sites ==> site.baseName == None)
      requires value == FirstFor(modules, BaseName(site.fname))
      modifies this`cached, this`sites, site
      ensures Valid() && site.level == value && sites == old(sites) + {site}
    {
      hide BaseName, SafeMatch, Vlog.FirstFor;
      ghost var before := cached;
      assert site in sites ==> Agrees(site);
      site.level := value;
      if value == Default && site.baseName == None {
        site.baseName := Some(BaseName(site.fname));
        cached := [site] + cached;
      }
      sites := sites + {site};
      assert forall s :: s in cached <==> s in before || (s == site && |cached| > |before|);
    }

    method FirstDeciding(base: string) returns (value: LevelRef)
      ensures value == FirstFor(modules, base)
    {
      value := Default;
      var i := 0;
      while i < |modules|
        invariant i <= |modules| && FirstFor(modules, base) == FirstFor(modules[i..], base)
      {
        assert modules[i..][1..] == modules[i + 1..];
        var decides := SafeFNMatch(modules[i].pattern, base);
        if decides {
          return Entry(modules[i]);
        }
        i := i + 1;
      }
    }

    /** VLOG_IS_ON(): only a site without a level is initialised.  The answer compares the level that
        decides for the file at this moment, or that the site was bound to. */
    method VlogIsOn(site: SiteFlag, verboseLevel: int) returns (on: bool)
      requires Valid() && (if site.level == Unset then site.baseName == None else site in sites)
      modifies this, site
      ensures Valid() && v == old(v)
      ensures if site.level == Unset then site.baseName == None else site in sites
      ensures sites == old(sites) || sites == old(sites) + {site}
      ensures forall m :: m in modules ==> m in old(modules) || fresh(m)
      ensures old(site.level) != Unset ==> site.level == old(site.level) && modules == old(modules)
      ensures old(site.level) == Default ==> (on <==> v >= verboseLevel)
      ensures old(site.level).Entry? ==> (on <==> old(site.level).info.level >= verboseLevel)
      ensures old(site.level) == Unset ==>
        && (forall i :: IsFirst(modules, i, BaseName(site.fname)) ==> (on <==> modules[i].level >= verboseLevel))
        && ((forall m <- modules :: !Decides(m, BaseName(site.fname))) ==> (on <==> v >= verboseLevel))
    {
      if site.level == Unset {
        on := InitVLOG3(site, verboseLevel);
      } else {
        on := Value(site.level) >= verboseLevel;
      }
    }

    /** The entry whose level SetVLOGLevel returns: the first with the same pattern or with one that
        matches the given pattern as a name. */
    static function FirstAnswer(list: seq<ModuleInfo>, pattern: string): (r: Option<ModuleInfo>)
      ensures r.None? ==> forall i :: 0 <= i < |list| ==> list[i].pattern != pattern && !Decides(list[i], pattern)
      ensures r.Some? ==> exists i :: AnswersFirst(list, i, pattern) && r.value == list[i]
    {
      if list == [] then None
      else if list[0].pattern == pattern || Decides(list[0], pattern) then
        assert AnswersFirst(list, 0, pattern);
        Some(list[0])
      else
        var r := FirstAnswer(list[1..], pattern);
        AnswerBehind(list, pattern, r);
        r
    }

    /** The entry i has the pattern or matches it, and no earlier one does. */
    static ghost predicate AnswersFirst(list: seq<ModuleInfo>, i: int, pattern: string)
    {
      && 0 <= i < |list| && (list[i].pattern == pattern || Decides(list[i], pattern))
      && forall j :: 0 <= j < i ==> list[j].pattern != pattern && !Decides(list[j], pattern)
    }

    static lemma AnswerBehind(list: seq<ModuleInfo>, pattern: string, r: Option<ModuleInfo>)
      requires list != [] && list[0].pattern != pattern && !Decides(list[0], pattern)
      requires r.Some? ==> exists i :: AnswersFirst(list[1..], i, pattern) && r.value == list[1..][i]
      ensures r.Some? ==> exists i :: AnswersFirst(list, i, pattern) && r.value == list[i]
    {
      if r.Some? {
        var i :| AnswersFirst(list[1..], i, pattern) && r.value == list[1..][i];
        assert AnswersFirst(list, i + 1, pattern);
      }
    }

    /** The first loop of SetVLOGLevel(). */
    method ChangeLevels(pattern: string, logLevel: int) returns (found: bool, result: int)
      modifies modules
      ensures found <==> FirstAnswer(modules, pattern).Some?
      ensures result == if found then old(FirstAnswer(modules, pattern).value.level) else v
      ensures forall m <- modules :: m.level == if m.pattern == pattern then logLevel else old(m.level)
    {
      hide SafeMatch, Vlog.AnswersFirst;
      found, result := false, v;
      var i := 0;
      while i < |modules|
        invariant i <= |modules|
        invariant FirstAnswer(modules, pattern) ==
          if found then FirstAnswer(modules, pattern) else FirstAnswer(modules[i..], pattern)
        invariant found ==> FirstAnswer(modules, pattern).Some?
        invariant found ==> result == old(FirstAnswer(modules, pattern).value.level)
        invariant !found ==> result == v && forall j :: 0 <= j < i ==> modules[j].pattern != pattern
        invariant forall m <- modules[..i] :: m.level == if m.pattern == pattern then logLevel else old(m.level)
        invariant forall m <- modules :: m.level == old(m.level) || (m.pattern == pattern && m.level == logLevel)
        invariant !found ==> forall m <- modules :: m.level == old(m.level)
      {
        assert modules[i..][1..] == modules[i + 1..];
        var info := modules[i];
        if info.pattern == pattern {
          if !found {
            result := info.level;
            found := true;
          }
          info.level := logLevel;
        } else if !found {
          var decides := SafeFNMatch(info.pattern, pattern);
          if decides {
            result := info.level;
            found := true;
          }
        }
        assert modules[..i + 1] == modules[..i] + [info];
        i := i + 1;
      }
      assert modules[..i] == modules;
    }

    static lemma RemoveAt(list: seq<SiteFlag>, i: nat)
      requires Distinct(list) && i < |list|
      ensures var r := list[..i] + list[i + 1..];
        && Distinct(r) && list[i] !in r
        && (forall s :: s in list ==> s == list[i] || s in r) && (forall s :: s in r ==> s in list)
        && (forall j :: 0 <= j < i ==> r[j] == list[j])
    {
      var r := list[..i] + list[i + 1..];
      forall s | s in list ensures s == list[i] || s in r {
        var k :| 0 <= k < |list| && list[k] == s;
        assert k < i ==> r[k] == s;
        assert k > i ==> r[k - 1] == s;
      }
      forall s | s in r ensures s in list && s != list[i] {
        var k :| 0 <= k < |r| && r[k] == s;
        assert s == if k < i then list[k] else list[k + 1];
      }
    }

    /** The second loop of SetVLOGLevel(): the cached sites that a new entry decides for are redirected
        to it and leave the cache. */
    method Redirect(info: ModuleInfo)
      requires modules != [] && modules[0] == info
      requires Distinct(cached) && (forall s :: s in cached ==> s in sites && s.level == Default)
      requires forall s :: s in sites && s.level == Default ==> s in cached
      requires forall s :: s in sites ==>
        if s.level == Default
        then s.baseName == Some(BaseName(s.fname)) &&
             forall i :: 1 <= i < |modules| ==> !Decides(modules[i], BaseName(s.fname))
        else Agrees(s)
      requires !inited ==> sites == {}
      modifies this`cached, cached
      ensures Valid()
      ensures forall s <- sites ::
        s.level == if old(s.level) == Default && Decides(info, BaseName(s.fname)) then Entry(info) else old(s.level)
    {
      hide BaseName, Decides;
      ghost var before := cached;
      assert forall s :: s in sites && s.level == Default ==> s in before;
      RedirectCached(info);
    }

    method RedirectCached(info: ModuleInfo)
      requires Distinct(cached)
      requires forall s <- cached :: s.level == Default && s.baseName == Some(BaseName(s.fname))
      modifies this`cached, cached
      ensures Distinct(cached) && forall s <- cached :: s in old(cached)
      ensures forall s <- old(cached) :: s.baseName == old(s.baseName)
      ensures forall s <- old(cached) ::
        if Decides(info, BaseName(s.fname)) then s !in cached && s.level == Entry(info)
        else s in cached && s.level == Default
    {
      hide BaseName, SafeMatch;
      ghost var before := cached;
      var i := 0;
      while i < |cached|
        invariant i <= |cached| && Distinct(cached) && forall s <- cached :: s in before && s.level == Default
        invariant forall j :: 0 <= j < i ==> !Decides(info, BaseName(cached[j].fname))
        invariant forall s <- before :: s.baseName == old(s.baseName)
        invariant forall s <- before :: s in cached || (s.level == Entry(info) && Decides(info, BaseName(s.fname)))
        decreases |cached| - i
      {
        var item := cached[i];
        assert item.baseName == Some(BaseName(item.fname));
        var decides := SafeFNMatch(info.pattern, item.baseName.value);
        if decides {
          item.level := Entry(info);
          RemoveAt(cached, i);
          cached := cached[..i] + cached[i + 1..];
        } else {
          i := i + 1;
        }
      }
    }

    /** A new entry at the head of the list, when no entry has the pattern or matches it. */
    method AddEntry(pattern: string, logLevel: int)
      requires Valid()
      modifies this`modules, this`cached, cached
      ensures Valid() && |modules| == |old(modules)| + 1 && modules[1..] == old(modules)
      ensures fresh(modules[0]) && modules[0].pattern == pattern && modules[0].level == logLevel
      ensures forall s <- sites ::
        s.level == if old(s.level) == Default && Decides(modules[0], BaseName(s.fname))
                   then Entry(modules[0]) else old(s.level)
    {
      hide BaseName, SafeMatch, Decides;
      var info := new ModuleInfo(pattern, logLevel);
      ghost var before := modules;
      forall s | s in sites
        ensures s.level == Default ==> s.baseName == Some(BaseName(s.fname))
        ensures s.level == Default ==> forall i :: 0 <= i < |before| ==> !Decides(before[i], BaseName(s.fname))
      {
        assert Agrees(s);
      }
      modules := [info] + modules;
      assert forall i :: 1 <= i < |modules| ==> modules[i] == before[i - 1];
      Redirect(info);
    }

    /** SetVLOGLevel() */
    method SetVLOGLevel(pattern: string, logLevel: int) returns (result: int)
      requires Valid()
      modifies this`modules, this`cached, modules, cached
      ensures Valid()
      ensures result == if FirstAnswer(old(modules), pattern).Some?
                        then old(FirstAnswer(modules, pattern).value.level) else v
      ensures forall m <- old(modules) :: m.level == if m.pattern == pattern then logLevel else old(m.level)
      ensures if FirstAnswer(old(modules), pattern).Some? then modules == old(modules)
              else |modules| == |old(modules)| + 1 && modules[1..] == old(modules) &&
                   fresh(modules[0]) && modules[0].pattern == pattern && modules[0].level == logLevel
      ensures forall s <- sites ::
        s.level == if old(s.level) == Default && modules != old(modules) && Decides(modules[0], BaseName(s.fname))
                   then Entry(modules[0]) else old(s.level)
    {
      hide BaseName, SafeMatch, Decides, Vlog.FirstAnswer;
      var found;
      found, result := ChangeLevels(pattern, logLevel);
      if !found {
        AddEntry(pattern, logLevel);
      }
    }
  }

  /** What SetVLOGLevel is for: afterwards the statements that its pattern governs are on exactly up to the
      new level.  These are the ones in files that were bound to an entry of this pattern, and, if no entry
      had the pattern or matched it, the ones that were bound to the default in files that it matches.  All
      others answer as before. */
  method SetThenAsk(vlog: Vlog, site: SiteFlag, pattern: string, logLevel: int, verboseLevel: int) returns (on: bool)
    requires vlog.Valid() && site in vlog.sites
    modifies vlog, vlog.modules, vlog.cached, site
    ensures old(site.level).Entry? && old(site.level).info.pattern == pattern ==> (on <==> logLevel >= verboseLevel)
    ensures old(site.level).Entry? && old(site.level).info.pattern != pattern ==>
      (on <==> old(site.level.info.level) >= verboseLevel)
    ensures old(site.level) == Default ==>
      var isNew := forall m <- old(vlog.modules) :: m.pattern != pattern && !SafeMatch(m.pattern, pattern);
      on <==> (if isNew && SafeMatch(pattern, BaseName(site.fname)) then logLevel else vlog.v) >= verboseLevel
  {
    assert vlog.Agrees(site);
    hide BaseName, SafeMatch;
    var _ := vlog.SetVLOGLevel(pattern, logLevel);
    on := vlog.VlogIsOn(site, verboseLevel);
  }

  datatype Event = Statement(site: nat, verboseLevel: int) | SetLevel(pattern: string, logLevel: int)

  /** The sites of a program are those the cache may know, each of them initialised or untouched. */
  ghost predicate Covered(vlog: Vlog, sites: seq<SiteFlag>)
    reads vlog, set s | s in sites
  {
    && (forall s :: s in sites ==> if s.level == Unset then s.baseName == None else s in vlog.sites)
    && (forall s :: s in vlog.sites ==> s in sites)
  }

  /** The sites that pointed at a module entry then point at it now. */
  ghost predicate StillBound(past: seq<LevelRef>, sites: seq<SiteFlag>)
    reads sites
  {
    |past| == |sites| && forall i :: 0 <= i < |sites| && past[i].Entry? ==> sites[i].level == past[i]
  }

  method Step(vlog: Vlog, sites: seq<SiteFlag>, e: Event)
    requires vlog.Valid() && Covered(vlog, sites)
    modifies vlog, sites, vlog.modules
    ensures vlog.Valid() && Covered(vlog, sites)
    ensures forall i :: 0 <= i < |sites| && old(sites[i].level).Entry? ==> sites[i].level == old(sites[i].level)
    ensures forall m :: m in vlog.modules ==> m in old(vlog.modules) || fresh(m)
  {
    hide SafeMatch, Decides, BaseName, Vlog.IsFirst, Vlog.FirstFor;
    match e {
      case Statement(k, verboseLevel) =>
        if k < |sites| {
          assert sites[k] in sites;
          var _ := vlog.VlogIsOn(sites[k], verboseLevel);
        }
      case SetLevel(pattern, logLevel) =>
        ghost var before := vlog.modules;
        assert forall i :: 0 <= i < |vlog.cached| ==> vlog.cached[i] in vlog.cached && vlog.cached[i] in sites;
        var _ := vlog.SetVLOGLevel(pattern, logLevel);
        assert forall m :: m in vlog.modules ==> m in before || m == vlog.modules[0];
    }
  }

  /** Any run of VLOG statements in the given files and of SetVLOGLevel calls, in any order: at its end
      each initialised site agrees with the list of patterns, and a site that was bound to a module
      entry at any time is still bound to it. */
  method Run(v: int, vmodule: string, scan: string -> Option<int>, files: seq<string>, events: seq<Event>)
    returns (vlog: Vlog, sites: seq<SiteFlag>, ghost history: seq<seq<LevelRef>>)
    ensures vlog.Valid() && |sites| == |files| && |history| == |events|
    ensures forall i :: 0 <= i < |sites| ==> sites[i].fname == files[i]
    ensures forall i :: 0 <= i < |sites| ==> sites[i].level == Unset || vlog.Agrees(sites[i])
    ensures forall n :: 0 <= n < |history| ==> StillBound(history[n], sites)
  {
    vlog := new Vlog(v, vmodule, scan);
    sites, history := [], [];
    for i := 0 to |files|
      invariant |sites| == i && vlog.Valid() && fresh(vlog) && vlog.sites == {} && vlog.modules == []
      invariant vlog.cached == []
      invariant forall j :: 0 <= j < i ==>
        fresh(sites[j]) && sites[j].fname == files[j] && sites[j].level == Unset && sites[j].baseName == None
    {
      var site := new SiteFlag(files[i]);
      sites := sites + [site];
    }
    for n := 0 to |events|
      invariant vlog.Valid() && Covered(vlog, sites) && |history| == n
      invariant fresh(vlog) && fresh(set s | s in sites) && fresh(set m | m in vlog.modules)
      invariant forall k :: 0 <= k < n ==> StillBound(history[k], sites)
    {
      assert forall s :: s in sites ==> s in set t | t in sites;
      assert forall m :: m in vlog.modules ==> m in set t | t in vlog.modules;
      Step(vlog, sites, events[n]);
      history := history + [seq(|sites|, i requires 0 <= i < |sites| reads set s | s in sites => sites[i].level)];
    }
  }
}
