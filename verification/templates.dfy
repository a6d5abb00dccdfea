/** The files `convert` writes (tools/migrate_claude_project.py:101-230):
    their paths relative to the output directory, their text and the
    sources the manifest records for them. */
module Templates {
  import opened Text
  import opened Slug
  import opened Frontmatter
  import opened Describe
  import opened Json
  import opened OrderedMap
  import opened Mcp

  datatype Target = OpenCode | Codex

  function TargetName(t: Target): string {
    match t
    case OpenCode => "opencode"
    case Codex => "codex"
  }

  /** A file under `.claude/agents`, `skills` or `commands`: `str(p)`,
      `p.stem` and its text. */
  datatype SourceDoc = SourceDoc(path: string, stem: string, text: string)

  /** One record of `agent_metadata`. */
  datatype AgentMeta = AgentMeta(file: string, name: string, desc: string, body: string, slug: string)

  /** A written file: path relative to the output directory, content, and
      the `from` list recorded for it in the manifest. */
  datatype Output = Output(path: string, content: string, from: seq<string>)

  /** `fm.get(key, default)` */
  function GetOr(h: Header, key: string, default: string): string {
    if key in h then h[key] else default
  }

  /** `[f(x) for x in xs]` */
  function MapSeq<A, B>(xs: seq<A>, f: A -> B): (r: seq<B>)
    ensures |r| == |xs|
    decreases |xs|
  {
    if xs == [] then [] else MapSeq(xs[..|xs| - 1], f) + [f(xs[|xs| - 1])]
  }

  lemma {:induction false} MapSeqAt<A, B>(xs: seq<A>, f: A -> B, i: nat)
    requires i < |xs|
    ensures MapSeq(xs, f)[i] == f(xs[i])
    decreases |xs|
  {
    if i < |xs| - 1 {
      MapSeqAt(xs[..|xs| - 1], f, i);
    }
  }

  lemma MapSeqAll<A, B>(xs: seq<A>, f: A -> B)
    ensures forall i :: 0 <= i < |xs| ==> MapSeq(xs, f)[i] == f(xs[i])
  {
    forall i | 0 <= i < |xs| ensures MapSeq(xs, f)[i] == f(xs[i]) {
      MapSeqAt(xs, f, i);
    }
  }

  lemma MapSeqSnoc<A, B>(xs: seq<A>, x: A, f: A -> B)
    ensures MapSeq(xs + [x], f) == MapSeq(xs, f) + [f(x)]
  {
    assert (xs + [x])[..|xs|] == xs;
  }

  /** One step of a loop building `[f(x) for x in xs]`. */
  lemma MapSeqStep<A, B>(xs: seq<A>, i: nat, acc: seq<B>, y: B, f: A -> B)
    requires i < |xs| && acc == MapSeq(xs[..i], f) && y == f(xs[i])
    ensures acc + [y] == MapSeq(xs[..i + 1], f)
  {
    assert xs[..i + 1] == xs[..i] + [xs[i]];
    MapSeqSnoc(xs[..i], xs[i], f);
  }

  /** The metadata lines 122-127 collect for one agent file. */
  function AgentOf(d: SourceDoc): AgentMeta {
    var p := Parse(d.text);
    var name := GetOr(p.header, "name", d.stem);
    var desc := GetOr(p.header, "description", InferDesc(p.body, name));
    AgentMeta(d.path, name, desc, p.body, Slugify(name))
  }

  /** An agent is named by its header, else by its file stem; it is
      described by its header, else by its body, else by its name; and its
      slug is a slug of that name. */
  lemma AgentFields(d: SourceDoc)
    ensures var a := AgentOf(d); var p := Parse(d.text);
      && a.file == d.path && a.body == p.body
      && ("name" in p.header ==> a.name == p.header["name"])
      && ("name" !in p.header ==> a.name == d.stem)
      && ("description" in p.header ==> a.desc == p.header["description"])
      && ("description" !in p.header ==> a.desc == InferDesc(p.body, a.name))
      && IsSlug(a.slug) && a.slug == Slugify(a.name)
  {
  }

  const RulesHeading := "# Project Rules (migrated from CLAUDE.md)\n\n"

  /** `AGENTS.md` from the text of `CLAUDE.md` (lines 102-106). */
  function RulesOutput(md: SourceDoc): Output {
    Output("AGENTS.md", RulesHeading + Strip(md.text) + "\n", [md.path])
  }

  function RulesOutputs(md: Option<SourceDoc>): seq<Output> {
    if md.Some? then [RulesOutput(md.value)] else []
  }

  /** An opencode prompt file (lines 148-150). */
  function PromptOutput(a: AgentMeta): Output {
    Output(".opencode/prompts/" + a.slug + ".txt", Strip(a.body) + "\n", [a.file])
  }

  /** A codex agent file (lines 198-200). */
  function AgentOutput(a: AgentMeta): Output {
    Output("agents/" + a.slug + ".md",
      "# " + a.name + "\n\nName: " + a.name + "\nDescription: " + a.desc
      + "\nTools needed: TBD\n\n---\n\n" + a.body + "\n",
      [a.file])
  }

  function SkillDir(t: Target): string {
    match t
    case OpenCode => ".opencode/instructions/skills/"
    case Codex => "skills/"
  }

  /** A skill file, the same text for both targets (lines 159-164, 203-208). */
  function SkillOutput(t: Target, d: SourceDoc): Output {
    var body := Parse(d.text).body;
    Output(SkillDir(t) + Slugify(d.stem) + ".md", "# Skill: " + d.stem + "\n\n" + body + "\n", [d.path])
  }

  function CommandDir(t: Target): string {
    match t
    case OpenCode => ".opencode/command/"
    case Codex => "commands/"
  }

  /** The text of a command file with header `header` and body `body`. */
  function CommandText(t: Target, stem: string, header: Header, body: string): string {
    var desc := GetOr(header, "description", InferDesc(body, stem));
    match t
    case OpenCode =>
      "---\ndescription: " + desc + "\nagent: " + GetOr(header, "agent", "plan") + "\n---\n\n" + body + "\n"
    case Codex =>
      "# Command: " + stem + "\n\nDescription: " + desc + "\n\n---\n\n" + body + "\n"
  }

  /** A command file (lines 168-175, 211-217). */
  function CommandOutput(t: Target, d: SourceDoc): Output {
    var p := Parse(d.text);
    Output(CommandDir(t) + Slugify(d.stem) + ".md", CommandText(t, d.stem, p.header, p.body), [d.path])
  }

  lemma StartsWithConcat(a: string, b: string, c: string)
    ensures StartsWith(a + b + c, a)
  {
    assert (a + b + c)[..|a|] == a;
  }

  /** An opencode command is described by its header, else by its body,
      else by its file stem, and runs under the header's agent, else under
      `plan`. */
  lemma OpenCodeCommandFields(d: SourceDoc, header: Header, body: string)
    requires Parse(d.text) == Parsed(header, body)
    ensures var desc := if "description" in header then header["description"] else InferDesc(body, d.stem);
      var agent := if "agent" in header then header["agent"] else "plan";
      && CommandOutput(OpenCode, d).from == [d.path]
      && StartsWith(CommandOutput(OpenCode, d).content,
           "---\ndescription: " + desc + "\nagent: " + agent + "\n---\n\n")
  {
    var head := "---\ndescription: " + GetOr(header, "description", InferDesc(body, d.stem))
      + "\nagent: " + GetOr(header, "agent", "plan") + "\n---\n\n";
    assert CommandOutput(OpenCode, d).content == CommandText(OpenCode, d.stem, header, body);
    assert CommandText(OpenCode, d.stem, header, body) == head + body + "\n";
    StartsWithConcat(head, body, "\n");
  }

  /** A codex command is described by its header, else by its body, else
      by its file stem, under a title naming the stem. */
  lemma CodexCommandFields(d: SourceDoc, header: Header, body: string)
    requires Parse(d.text) == Parsed(header, body)
    ensures var desc := if "description" in header then header["description"] else InferDesc(body, d.stem);
      && CommandOutput(Codex, d).from == [d.path]
      && StartsWith(CommandOutput(Codex, d).content,
           "# Command: " + d.stem + "\n\nDescription: " + desc + "\n\n---\n\n")
  {
    var head := "# Command: " + d.stem + "\n\nDescription: "
      + GetOr(header, "description", InferDesc(body, d.stem)) + "\n\n---\n\n";
    assert CommandOutput(Codex, d).content == CommandText(Codex, d.stem, header, body);
    assert CommandText(Codex, d.stem, header, body) == head + body + "\n";
    StartsWithConcat(head, body, "\n");
  }

  /** The lines one server adds to `MCP.md`; opencode also suggests a
      command. `dumps` is `json.dumps(..., indent=2)`. */
  function ServerLines(t: Target, s: ServerEntry, dumps: Json -> string): seq<string> {
    ["### " + s.name + "\n", "Source: `" + s.source + "`\n", "```json\n" + dumps(s.config) + "\n```\n"]
    + if t == OpenCode then
        ["\nSuggested OpenCode command:\n```bash\n",
         "opencode mcp add " + s.name + " --config <path-to-config>\n```\n"]
      else []
  }

  /** The server sections in order. */
  function ServerSections(t: Target, ss: seq<ServerEntry>, dumps: Json -> string): seq<string>
    decreases |ss|
  {
    if ss == [] then []
    else ServerSections(t, ss[..|ss| - 1], dumps) + ServerLines(t, ss[|ss| - 1], dumps)
  }

  const NoServersLine := "No MCP servers detected in .claude settings.\n"

  /** The `mcp_md` list (lines 131-141, 220-228). */
  function McpLines(t: Target, ss: seq<ServerEntry>, dumps: Json -> string): seq<string> {
    ["# MCP Migration\n"]
    + if ss == [] then [NoServersLine]
      else ["## Detected MCP Servers\n"] + ServerSections(t, ss, dumps)
  }

  /** One more server appends its section. */
  lemma SectionsStep(t: Target, ss: seq<ServerEntry>, i: nat, dumps: Json -> string)
    requires i < |ss|
    ensures ServerSections(t, ss[..i + 1], dumps) == ServerSections(t, ss[..i], dumps) + ServerLines(t, ss[i], dumps)
  {
    assert ss[..i + 1][..i] == ss[..i];
  }

  /** The source's loop appending to `mcp_md`. */
  method BuildMcpLines(t: Target, ss: seq<ServerEntry>, dumps: Json -> string) returns (lines: seq<string>)
    ensures lines == McpLines(t, ss, dumps)
  {
    lines := ["# MCP Migration\n"];
    if ss == [] {
      lines := lines + [NoServersLine];
      return;
    }
    var head := lines + ["## Detected MCP Servers\n"];
    lines := head;
    assert lines == head + ServerSections(t, ss[..0], dumps);
    for i := 0 to |ss|
      invariant lines == head + ServerSections(t, ss[..i], dumps)
    {
      var piece := ServerLines(t, ss[i], dumps);
      SectionsStep(t, ss, i, dumps);
      AppendAssoc(head, ServerSections(t, ss[..i], dumps), piece);
      lines := lines + piece;
    }
    assert ss[..|ss|] == ss;
    AppendAssoc(["# MCP Migration\n"], ["## Detected MCP Servers\n"], ServerSections(t, ss, dumps));
  }

  /** The number of lines a server section has. */
  function SectionSize(t: Target): nat {
    if t == OpenCode then 5 else 3
  }

  /** Each server has its own section, in order, opened by its name. */
  lemma SectionsShape(t: Target, ss: seq<ServerEntry>, dumps: Json -> string)
    ensures |ServerSections(t, ss, dumps)| == SectionSize(t) * |ss|
    ensures forall i :: 0 <= i < |ss| ==>
      ServerSections(t, ss, dumps)[SectionSize(t) * i] == "### " + ss[i].name + "\n"
    ensures forall i :: 0 <= i < |ss| ==>
      ServerSections(t, ss, dumps)[SectionSize(t) * i + 1] == "Source: `" + ss[i].source + "`\n"
  {
    SectionsLength(t, ss, dumps);
    forall i | 0 <= i < |ss|
      ensures ServerSections(t, ss, dumps)[SectionSize(t) * i] == "### " + ss[i].name + "\n"
      ensures ServerSections(t, ss, dumps)[SectionSize(t) * i + 1] == "Source: `" + ss[i].source + "`\n"
    {
      SectionAt(t, ss, dumps, i);
    }
  }

  lemma {:induction false} SectionsLength(t: Target, ss: seq<ServerEntry>, dumps: Json -> string)
    ensures |ServerSections(t, ss, dumps)| == SectionSize(t) * |ss|
    decreases |ss|
  {
    if ss != [] {
      var n := |ss| - 1;
      SectionsLength(t, ss[..n], dumps);
      ServerLinesShape(t, ss[n], dumps);
      assert SectionSize(t) * |ss| == SectionSize(t) * n + SectionSize(t);
    }
  }

  /** The section of the `i`-th server. */
  lemma {:induction false} SectionAt(t: Target, ss: seq<ServerEntry>, dumps: Json -> string, i: nat)
    requires i < |ss|
    ensures var sections, k := ServerSections(t, ss, dumps), SectionSize(t);
      && k * i + 1 < |sections|
      && sections[k * i] == "### " + ss[i].name + "\n"
      && sections[k * i + 1] == "Source: `" + ss[i].source + "`\n"
    decreases |ss|
  {
    var n, k := |ss| - 1, SectionSize(t);
    var before, last := ServerSections(t, ss[..n], dumps), ServerLines(t, ss[n], dumps);
    ServerLinesShape(t, ss[n], dumps);
    SectionsLength(t, ss[..n], dumps);
    assert ServerSections(t, ss, dumps) == before + last;
    if i < n {
      SectionAt(t, ss[..n], dumps, i);
      assert ss[..n][i] == ss[i];
    } else {
      assert k * i == |before|;
    }
  }

  /** A server's section opens with its name and source. */
  lemma ServerLinesShape(t: Target, s: ServerEntry, dumps: Json -> string)
    ensures var lines := ServerLines(t, s, dumps);
      && |lines| == SectionSize(t)
      && lines[0] == "### " + s.name + "\n"
      && lines[1] == "Source: `" + s.source + "`\n"
  {
  }

  /** `[s["source"] for s in mcp_servers]`: one source per entry, duplicates
      kept. */
  function Sources(ss: seq<ServerEntry>): seq<string> {
    MapSeq(ss, (s: ServerEntry) => s.source)
  }

  /** `MCP.md` */
  function McpOutput(t: Target, ss: seq<ServerEntry>, dumps: Json -> string): Output {
    Output("MCP.md", Join("\n", McpLines(t, ss, dumps)), Sources(ss))
  }

  /** With no servers `MCP.md` holds its title and a single notice. */
  lemma McpWithoutServers(t: Target, dumps: Json -> string)
    ensures McpOutput(t, [], dumps).content == "# MCP Migration\n" + "\n" + NoServersLine
    ensures McpOutput(t, [], dumps).from == []
  {
    var lines := McpLines(t, [], dumps);
    assert lines == ["# MCP Migration\n", NoServersLine];
    assert lines[1..] == [NoServersLine];
    assert Join("\n", lines[1..]) == NoServersLine;
    assert Join("\n", lines) == lines[0] + "\n" + Join("\n", lines[1..]);
  }

  /** `if name and config:` — a server the `mcp` block takes. */
  predicate Selected(s: ServerEntry) {
    s.name != [] && Truthy(s.config)
  }

  /** The `mcp_block` dict (lines 183-188). */
  function McpBlock(ss: seq<ServerEntry>): OMap<Json>
    decreases |ss|
  {
    if ss == [] then []
    else
      var block := McpBlock(ss[..|ss| - 1]);
      var s := ss[|ss| - 1];
      if Selected(s) then Put(block, s.name, s.config) else block
  }

  /** The source's loop filling `mcp_block`. */
  method BuildMcpBlock(ss: seq<ServerEntry>) returns (block: OMap<Json>)
    ensures block == McpBlock(ss)
  {
    block := [];
    for i := 0 to |ss|
      invariant block == McpBlock(ss[..i])
    {
      assert ss[..i + 1][..i] == ss[..i];
      var s := ss[i];
      if s.name != [] && Truthy(s.config) {
        block := Put(block, s.name, s.config);
      }
    }
    assert ss[..|ss|] == ss;
  }

  /** Last write wins: a name maps to the config of the last selected entry
      that has it. */
  lemma {:induction false} McpBlockLastWins(ss: seq<ServerEntry>, i: nat)
    requires i < |ss| && Selected(ss[i])
    requires forall j :: i < j < |ss| && Selected(ss[j]) ==> ss[j].name != ss[i].name
    ensures Lookup(McpBlock(ss), ss[i].name) == Some(ss[i].config)
    decreases |ss|
  {
    var n := |ss| - 1;
    var before := McpBlock(ss[..n]);
    if Selected(ss[n]) {
      PutLookup(before, ss[n].name, ss[n].config, ss[i].name);
    }
    if i < n {
      assert ss[..n][i] == ss[i];
      forall j | i < j < n && Selected(ss[..n][j]) ensures ss[..n][j].name != ss[..n][i].name {
        assert ss[..n][j] == ss[j];
      }
      McpBlockLastWins(ss[..n], i);
    }
  }

  /** A name no selected entry has is absent: entries with an empty name or
      a falsy config are skipped. */
  lemma {:induction false} McpBlockAbsent(ss: seq<ServerEntry>, k: string)
    requires forall j :: 0 <= j < |ss| && Selected(ss[j]) ==> ss[j].name != k
    ensures Lookup(McpBlock(ss), k).None?
    decreases |ss|
  {
    if ss != [] {
      var n := |ss| - 1;
      forall j | 0 <= j < n && Selected(ss[..n][j]) ensures ss[..n][j].name != k {
        assert ss[..n][j] == ss[j];
      }
      McpBlockAbsent(ss[..n], k);
      if Selected(ss[n]) {
        PutLookup(McpBlock(ss[..n]), ss[n].name, ss[n].config, k);
      }
    }
  }

  const Schema := "https://opencode.ai/schema/v1.json"

  /** The `cfg` dict written to `opencode.jsonc` (lines 178-190). */
  function OpenCodeConfig(ss: seq<ServerEntry>): Json {
    var base := [("$schema", JString(Schema)),
                 ("instructions", JArray([JString("./AGENTS.md"), JString("./.opencode/instructions/skills/")]))];
    var block := McpBlock(ss);
    JObject(if ss != [] && block != [] then base + [("mcp", JObject(block))] else base)
  }

  /** `$schema` and `instructions` are always there; `mcp` exactly when the
      block is non-empty, and then it is the block. */
  lemma ConfigKeys(ss: seq<ServerEntry>)
    ensures var m := OpenCodeConfig(ss).members;
      && Lookup(m, "$schema") == Some(JString(Schema))
      && Lookup(m, "instructions").Some?
      && (Lookup(m, "mcp").Some? <==> McpBlock(ss) != [])
      && (McpBlock(ss) != [] ==> Lookup(m, "mcp") == Some(JObject(McpBlock(ss))))
  {
    var m := OpenCodeConfig(ss).members;
    if ss == [] {
      assert McpBlock(ss) == [];
    }
    IndexOfIs(m, "$schema", 0);
    IndexOfIs(m, "instructions", 1);
    if McpBlock(ss) != [] {
      IndexOfIs(m, "mcp", 2);
    }
  }

  /** `opencode.jsonc`, recorded with an empty `from` list. */
  function ConfigOutput(ss: seq<ServerEntry>, dumps: Json -> string): Output {
    Output("opencode.jsonc", dumps(OpenCodeConfig(ss)) + "\n", [])
  }

  function SkillOutputs(t: Target, skills: seq<SourceDoc>): seq<Output> {
    MapSeq(skills, (d: SourceDoc) => SkillOutput(t, d))
  }

  function CommandOutputs(t: Target, commands: seq<SourceDoc>): seq<Output> {
    MapSeq(commands, (d: SourceDoc) => CommandOutput(t, d))
  }

  /** Where the per-file outputs go: the directory of their kind, then the
      slug. */
  lemma PromptPaths(agents: seq<AgentMeta>)
    ensures forall j :: 0 <= j < |agents| ==>
      MapSeq(agents, PromptOutput)[j].path == ".opencode/prompts/" + agents[j].slug + ".txt"
  {
    MapSeqAll(agents, PromptOutput);
  }

  lemma AgentPaths(agents: seq<AgentMeta>)
    ensures forall j :: 0 <= j < |agents| ==>
      MapSeq(agents, AgentOutput)[j].path == "agents/" + agents[j].slug + ".md"
  {
    MapSeqAll(agents, AgentOutput);
  }

  lemma SkillPaths(t: Target, skills: seq<SourceDoc>)
    ensures forall j :: 0 <= j < |skills| ==>
      SkillOutputs(t, skills)[j].path == SkillDir(t) + Slugify(skills[j].stem) + ".md"
  {
    MapSeqAll(skills, (d: SourceDoc) => SkillOutput(t, d));
  }

  lemma CommandPaths(t: Target, commands: seq<SourceDoc>)
    ensures forall j :: 0 <= j < |commands| ==>
      CommandOutputs(t, commands)[j].path == CommandDir(t) + Slugify(commands[j].stem) + ".md"
  {
    MapSeqAll(commands, (d: SourceDoc) => CommandOutput(t, d));
  }

  /** Every file the chosen target adds after `AGENTS.md`, in the order the
      source writes them. */
  function TargetOutputs(t: Target, agents: seq<AgentMeta>, skills: seq<SourceDoc>,
                         commands: seq<SourceDoc>, ss: seq<ServerEntry>, dumps: Json -> string): seq<Output> {
    match t
    case OpenCode =>
      [McpOutput(t, ss, dumps)] + MapSeq(agents, PromptOutput)
      + SkillOutputs(t, skills) + CommandOutputs(t, commands) + [ConfigOutput(ss, dumps)]
    case Codex =>
      MapSeq(agents, AgentOutput)
      + SkillOutputs(t, skills) + CommandOutputs(t, commands) + [McpOutput(t, ss, dumps)]
  }

  /** The codex agent file carries `Name: <name>` and `Description: <desc>`
      lines. */
  lemma AgentFileLines(a: AgentMeta)
    ensures var c := AgentOutput(a).content;
      && OccursAt(c, "Name: " + a.name, 4 + |a.name|)
      && OccursAt(c, "Description: " + a.desc, 11 + 2 * |a.name|)
  {
    var n, d := a.name, a.desc;
    var name, desc := "Name: " + n, "Description: " + d;
    var s2 := "# " + n + "\n\nName: ";
    var s3 := s2 + n;
    var s5 := s3 + "\nDescription: " + d;
    var c := AgentOutput(a).content;
    assert c == s5 + ("\nTools needed: TBD\n\n---\n\n" + a.body + "\n");
    var i := 4 + |n|;
    assert s2[i..] == "Name: ";
    assert s3[i..] == name;
    assert c[i..i + |name|] == s3[i..];
    assert OccursAt(c, name, i);
    var j := |s3| + 1;
    assert s5[j..] == desc;
    assert c[j..j + |desc|] == s5[j..];
    assert OccursAt(c, desc, j);
  }
}
