/** The selection logic of `extract_mcp_config`
    (tools/migrate_claude_project.py:62-80): every settings file that exists
    and decodes contributes one entry per member of its `mcp.servers`
    object, tagged with the file's path. */
module Mcp {
  import opened Text
  import opened Json
  import opened OrderedMap

  /** What reading and decoding one settings file gave. */
  datatype FileState = Missing | Undecodable | Decoded(data: Json)

  datatype SettingsFile = SettingsFile(path: string, state: FileState)

  /** `{"name": name, "config": cfg, "source": str(sf)}` */
  datatype ServerEntry = ServerEntry(name: string, config: Json, source: string)

  /** One entry per member of a `servers` object, in member order. */
  function Entries(members: seq<(string, Json)>, source: string): (r: seq<ServerEntry>)
    ensures |r| == |members|
    ensures forall i :: 0 <= i < |r| ==> r[i] == ServerEntry(members[i].0, members[i].1, source)
  {
    seq(|members|, i requires 0 <= i < |members| => ServerEntry(members[i].0, members[i].1, source))
  }

  /** The `servers` object selected from a decoded document, if any:
      `Done(None)` when the `mcp`/`servers` path is absent, `Crashed` when
      Python raises `TypeError` (an `in` on a number, a boolean or `None`,
      or a string index into a list or string) or `AttributeError` (a
      `servers` value without `.items()`). */
  function ServersOf(data: Json): Outcome<Option<seq<(string, Json)>>> {
    match Contains(data, "mcp")
    case Crashed => Crashed
    case Done(false) => Done(None)
    case Done(true) =>
      match Index(data, "mcp")
      case Crashed => Crashed
      case Done(mcp) =>
        match Contains(mcp, "servers")
        case Crashed => Crashed
        case Done(false) => Done(None)
        case Done(true) =>
          match Index(mcp, "servers")
          case Crashed => Crashed
          case Done(servers) =>
            if servers.JObject? then Done(Some(servers.members)) else Crashed
  }

  /** What one settings file contributes. */
  function FileEntries(f: SettingsFile): Outcome<seq<ServerEntry>> {
    match f.state
    case Missing => Done([])
    case Undecodable => Done([])
    case Decoded(data) =>
      match ServersOf(data)
      case Crashed => Crashed
      case Done(None) => Done([])
      case Done(Some(members)) => Done(Entries(members, f.path))
  }

  /** `a + b`, unless either side crashed. */
  function Then(a: Outcome<seq<ServerEntry>>, b: Outcome<seq<ServerEntry>>): Outcome<seq<ServerEntry>> {
    if a.Crashed? || b.Crashed? then Crashed else Done(a.value + b.value)
  }

  /** The list `extract_mcp_config` returns for the settings files in
      order, or `Crashed` when one of them raises. */
  function Extract(files: seq<SettingsFile>): Outcome<seq<ServerEntry>>
    decreases |files|
  {
    if files == [] then Done([])
    else Then(Extract(files[..|files| - 1]), FileEntries(files[|files| - 1]))
  }

  /** The inner loop: appending the entries of one file to `servers`, or
      `Crashed` when selecting its `servers` object raises. */
  method AddFile(servers: seq<ServerEntry>, f: SettingsFile) returns (r: Outcome<seq<ServerEntry>>)
    ensures r == Then(Done(servers), FileEntries(f))
  {
    if f.state.Decoded? {
      var found := ServersOf(f.state.data);
      if found.Crashed? {
        return Crashed;
      }
      if found.value.Some? {
        var members := found.value.value;
        var acc := servers;
        for j := 0 to |members|
          invariant acc == servers + Entries(members[..j], f.path)
        {
          acc := acc + [ServerEntry(members[j].0, members[j].1, f.path)];
        }
        assert members[..|members|] == members;
        return Done(acc);
      }
    }
    assert servers + [] == servers;
    return Done(servers);
  }

  /** The source's nested loops appending to `servers`. */
  method ExtractMcpConfig(files: seq<SettingsFile>) returns (r: Outcome<seq<ServerEntry>>)
    ensures r == Extract(files)
  {
    var servers: seq<ServerEntry> := [];
    for k := 0 to |files|
      invariant Extract(files[..k]) == Done(servers)
    {
      assert files[..k + 1][..k] == files[..k] && files[..k + 1][k] == files[k];
      var next := AddFile(servers, files[k]);
      if next.Crashed? {
        ExtractCrashed(files, k + 1);
        assert files[..|files|] == files;
        return Crashed;
      }
      servers := next.value;
    }
    assert files[..|files|] == files;
    return Done(servers);
  }

  /** Once a file crashes, so does the whole extraction. */
  lemma {:induction false} ExtractCrashed(files: seq<SettingsFile>, k: nat)
    requires k <= |files| && Extract(files[..k]).Crashed?
    ensures Extract(files).Crashed?
    decreases |files|
  {
    if k < |files| {
      assert files[..|files| - 1][..k] == files[..k];
      ExtractCrashed(files[..|files| - 1], k);
    } else {
      assert files[..k] == files;
    }
  }

  /** Concatenating outcomes is associative. */
  lemma ThenAssoc(x: Outcome<seq<ServerEntry>>, y: Outcome<seq<ServerEntry>>, z: Outcome<seq<ServerEntry>>)
    ensures Then(Then(x, y), z) == Then(x, Then(y, z))
  {
    if x.Done? && y.Done? && z.Done? {
      assert (x.value + y.value) + z.value == x.value + (y.value + z.value);
    }
  }

  /** Files are visited in order: the entries of `a + b` are those of `a`
      followed by those of `b`. */
  lemma {:induction false} ExtractAppend(a: seq<SettingsFile>, b: seq<SettingsFile>)
    ensures Extract(a + b) == Then(Extract(a), Extract(b))
    decreases |b|
  {
    if b == [] {
      assert a + b == a;
      if Extract(a).Done? {
        assert Extract(a).value + [] == Extract(a).value;
      }
    } else {
      var n := |b| - 1;
      var last := FileEntries(b[n]);
      assert (a + b)[..|a + b| - 1] == a + b[..n];
      assert (a + b)[|a + b| - 1] == b[n];
      assert Extract(a + b) == Then(Extract(a + b[..n]), last);
      assert Extract(b) == Then(Extract(b[..n]), last);
      ExtractAppend(a, b[..n]);
      ThenAssoc(Extract(a), Extract(b[..n]), last);
    }
  }

  /** A missing or undecodable file, or one without an `mcp`/`servers`
      path, contributes nothing. */
  lemma SkippedFile(a: seq<SettingsFile>, f: SettingsFile, b: seq<SettingsFile>)
    requires FileEntries(f) == Done([])
    ensures Extract(a + [f] + b) == Extract(a + b)
  {
    ExtractAppend(a + [f], b);
    ExtractAppend(a, [f]);
    ExtractAppend(a, b);
    assert [f][..0] == [];
    if Extract(a).Done? {
      assert Extract(a).value + [] == Extract(a).value;
    }
  }

  /** Every entry comes from one of the files and names that file as its
      source. */
  lemma {:induction false} EntrySources(files: seq<SettingsFile>)
    requires Extract(files).Done?
    ensures forall e :: e in Extract(files).value ==> exists f :: f in files && e.source == f.path
    decreases |files|
  {
    if files != [] {
      var init, last := files[..|files| - 1], files[|files| - 1];
      EntrySources(init);
      forall e | e in Extract(files).value ensures exists f :: f in files && e.source == f.path {
        if e in Extract(init).value {
          var f :| f in init && e.source == f.path;
          assert f in files;
        } else {
          assert e in FileEntries(last).value;
          assert last in files;
        }
      }
    }
  }

  /** For a document that is an object, the path `mcp` then `servers`
      decides: a missing key contributes nothing, a `servers` object gives its
      members, and `servers` of any other kind raises. */
  lemma ObjectDocument(f: SettingsFile, members: seq<(string, Json)>)
    requires f.state == Decoded(JObject(members))
    ensures Lookup(members, "mcp").None? ==> FileEntries(f) == Done([])
    ensures Lookup(members, "mcp").Some? && Lookup(members, "mcp").value.JObject? ==>
      var mcp := Lookup(members, "mcp").value.members;
      && (Lookup(mcp, "servers").None? ==> FileEntries(f) == Done([]))
      && (Lookup(mcp, "servers").Some? && Lookup(mcp, "servers").value.JObject? ==>
            FileEntries(f) == Done(Entries(Lookup(mcp, "servers").value.members, f.path)))
      && (Lookup(mcp, "servers").Some? && !Lookup(mcp, "servers").value.JObject? ==>
            FileEntries(f).Crashed?)
  {
    LookupHasKey(members, "mcp");
    if Lookup(members, "mcp").Some? && Lookup(members, "mcp").value.JObject? {
      LookupHasKey(Lookup(members, "mcp").value.members, "servers");
    }
  }

  /** The worked example: `{"mcp": {"servers": {"x": {"cmd": "y"}}}}` in
      one file gives exactly one entry, named `x`. */
  lemma ExtractExample(path: string)
    ensures
      var config := JObject([("cmd", JString("y"))]);
      var data := JObject([("mcp", JObject([("servers", JObject([("x", config)]))]))]);
      Extract([SettingsFile(path, Decoded(data))]) == Done([ServerEntry("x", config, path)])
  {
    var config := JObject([("cmd", JString("y"))]);
    var servers := JObject([("x", config)]);
    var mcp := JObject([("servers", servers)]);
    var data := JObject([("mcp", mcp)]);
    assert data.members[0].0 == "mcp";
    assert Contains(data, "mcp") == Done(true);
    assert Index(data, "mcp") == Done(mcp);
    assert mcp.members[0].0 == "servers";
    assert Contains(mcp, "servers") == Done(true);
    assert Index(mcp, "servers") == Done(servers);
    assert ServersOf(data) == Done(Some(servers.members));
    assert Entries(servers.members, path) == [ServerEntry("x", config, path)];
    var files := [SettingsFile(path, Decoded(data))];
    assert files[..0] == [];
    assert FileEntries(files[0]) == Done([ServerEntry("x", config, path)]);
    assert Extract(files) == Then(Done([]), FileEntries(files[0]));
    assert [] + [ServerEntry("x", config, path)] == [ServerEntry("x", config, path)];
  }
}
