/** `convert` (tools/migrate_claude_project.py:82-257): pick the output
    directory, write the converted files while recording each in
    `manifest["generated"]`, then write the migration report and the
    manifest. What the filesystem holds is given as a `Project`; the files
    written are returned as `Output`s, paths relative to the output
    directory. */
module Migration {
  import opened Text
  import opened Order
  import opened Frontmatter
  import opened Describe
  import opened Slug
  import opened Json
  import opened OrderedMap
  import opened Mcp
  import opened OutputDir
  import opened Templates

  /** What `convert` finds on disk: the files under `.claude` (`str(p)`),
      `CLAUDE.md` if one exists, the settings files, the files under
      `.claude/agents`, `skills` and `commands`, and the names already
      present under `.migration_out`. */
  datatype Project = Project(
    claudeFiles: seq<string>,
    claudeMd: Option<SourceDoc>,
    settings: seq<SettingsFile>,
    agents: seq<SourceDoc>,
    skills: seq<SourceDoc>,
    commands: seq<SourceDoc>,
    existing: set<string>)

  /** The outcome of a run: either every file was written, or the MCP
      extraction raised after `AGENTS.md` (if any) was written. */
  datatype Conversion =
    | Completed(outputs: seq<Output>, generated: OMap<seq<string>>, report: string, manifest: Json)
    | Aborted(outputs: seq<Output>)

  /** `manifest["generated"]` after recording `outs` one after another. */
  function Generated(outs: seq<Output>): OMap<seq<string>> {
    PutAll([], MapSeq(outs, (o: Output) => (o.path, o.from)))
  }

  /** Recording one more file assigns its entry. */
  lemma GeneratedSnoc(outs: seq<Output>, o: Output)
    ensures Generated(outs + [o]) == Put(Generated(outs), o.path, o.from)
  {
    var f := (o: Output) => (o.path, o.from);
    assert MapSeq(outs + [o], f)[..|outs|] == MapSeq(outs, f);
  }

  /** A path is a key of the manifest exactly when some written file has
      it. */
  lemma GeneratedKeys(outs: seq<Output>, k: string)
    ensures HasKey(Generated(outs), k) <==> exists i :: 0 <= i < |outs| && outs[i].path == k
  {
    var ps := MapSeq(outs, (o: Output) => (o.path, o.from));
    MapSeqAll(outs, (o: Output) => (o.path, o.from));
    PutAllKeys([], ps, k);
    if HasKey(ps, k) {
      var i :| 0 <= i < |ps| && ps[i].0 == k;
      assert outs[i].path == k;
    }
    if exists i :: 0 <= i < |outs| && outs[i].path == k {
      var i :| 0 <= i < |outs| && outs[i].path == k;
      assert ps[i].0 == k;
    }
  }

  /** A path records the sources of the last file written to it. */
  lemma GeneratedLastWins(outs: seq<Output>, i: nat)
    requires i < |outs| && forall j :: i < j < |outs| ==> outs[j].path != outs[i].path
    ensures Lookup(Generated(outs), outs[i].path) == Some(outs[i].from)
  {
    var ps := MapSeq(outs, (o: Output) => (o.path, o.from));
    MapSeqAll(outs, (o: Output) => (o.path, o.from));
    PutAllLastWins([], ps, i);
  }

  /** The manifest's keys are distinct. */
  lemma GeneratedDistinct(outs: seq<Output>)
    ensures DistinctKeys(Generated(outs))
  {
    PutAllDistinct([], MapSeq(outs, (o: Output) => (o.path, o.from)));
  }

  /** No file of `outs` is written to `path`. */
  predicate Avoids(outs: seq<Output>, path: string) {
    forall j :: 0 <= j < |outs| ==> outs[j].path != path
  }

  lemma AvoidsAppend(a: seq<Output>, b: seq<Output>, path: string)
    requires Avoids(a, path) && Avoids(b, path)
    ensures Avoids(a + b, path)
  {
    forall j | 0 <= j < |a + b| ensures (a + b)[j].path != path {
      if j >= |a| { assert (a + b)[j] == b[j - |a|]; }
    }
  }

  /** Every file of `outs` lies under `dir`. */
  predicate AllUnder(outs: seq<Output>, dir: string) {
    forall j :: 0 <= j < |outs| ==> dir <= outs[j].path
  }

  /** Files under `dir` avoid a path that leaves `dir` at position `k`. */
  lemma UnderAvoids(outs: seq<Output>, dir: string, path: string, k: nat)
    requires AllUnder(outs, dir) && k < |dir| && k < |path| && dir[k] != path[k]
    ensures Avoids(outs, path)
  {
    forall j | 0 <= j < |outs| ensures outs[j].path != path {
      assert outs[j].path[k] == dir[k];
    }
  }

  /** `dir + x + ext` determines `x`. */
  lemma AffixInjective(dir: string, x: string, y: string, ext: string)
    requires dir + x + ext == dir + y + ext
    ensures x == y
  {
    assert (dir + x + ext)[|dir|..|dir| + |x|] == x;
    assert (dir + y + ext)[|dir|..|dir| + |y|] == y;
  }

  /** A file is recorded with its own sources when nothing later is
      written to its path. */
  lemma RecordedLast(before: seq<Output>, o: Output, after: seq<Output>)
    requires Avoids(after, o.path)
    ensures Lookup(Generated(before + [o] + after), o.path) == Some(o.from)
  {
    var outs := before + [o] + after;
    assert outs[|before|] == o;
    forall j | |before| < j < |outs| ensures outs[j].path != o.path {
      assert outs[j] == after[j - |before| - 1];
    }
    GeneratedLastWins(outs, |before|);
  }

  lemma PrefixOfPath(dir: string, x: string, ext: string)
    ensures dir <= dir + x + ext
  {
    assert (dir + x + ext)[..|dir|] == dir;
  }

  /** The same within a batch: the `k`-th file of `block` is recorded with
      its own sources when nothing after it is written to its path. */
  lemma RecordedLastOfBlock(before: seq<Output>, block: seq<Output>, k: nat, after: seq<Output>)
    requires k < |block| && Avoids(block[k + 1..], block[k].path) && Avoids(after, block[k].path)
    ensures Lookup(Generated(before + block + after), block[k].path) == Some(block[k].from)
  {
    var outs := before + block + after;
    var i := |before| + k;
    assert outs[i] == block[k];
    forall j | i < j < |outs| ensures outs[j].path != outs[i].path {
      if j < |before| + |block| {
        assert outs[j] == block[k + 1..][j - i - 1];
      } else {
        assert outs[j] == after[j - |before| - |block|];
      }
    }
    GeneratedLastWins(outs, i);
  }

  lemma PromptsUnder(agents: seq<AgentMeta>)
    ensures AllUnder(MapSeq(agents, PromptOutput), ".opencode/prompts/")
  {
    PromptPaths(agents);
    var outs := MapSeq(agents, PromptOutput);
    forall j | 0 <= j < |outs| ensures ".opencode/prompts/" <= outs[j].path {
      PrefixOfPath(".opencode/prompts/", agents[j].slug, ".txt");
    }
  }

  lemma AgentsUnder(agents: seq<AgentMeta>)
    ensures AllUnder(MapSeq(agents, AgentOutput), "agents/")
  {
    AgentPaths(agents);
    var outs := MapSeq(agents, AgentOutput);
    forall j | 0 <= j < |outs| ensures "agents/" <= outs[j].path {
      PrefixOfPath("agents/", agents[j].slug, ".md");
    }
  }

  lemma SkillsUnder(t: Target, skills: seq<SourceDoc>)
    ensures AllUnder(SkillOutputs(t, skills), SkillDir(t))
  {
    SkillPaths(t, skills);
    var outs := SkillOutputs(t, skills);
    forall j | 0 <= j < |outs| ensures SkillDir(t) <= outs[j].path {
      PrefixOfPath(SkillDir(t), Slugify(skills[j].stem), ".md");
    }
  }

  lemma CommandsUnder(t: Target, commands: seq<SourceDoc>)
    ensures AllUnder(CommandOutputs(t, commands), CommandDir(t))
  {
    CommandPaths(t, commands);
    var outs := CommandOutputs(t, commands);
    forall j | 0 <= j < |outs| ensures CommandDir(t) <= outs[j].path {
      PrefixOfPath(CommandDir(t), Slugify(commands[j].stem), ".md");
    }
  }

  /** The source's writes, each followed by its
      `manifest["generated"][path] = {"from": ...}`. */
  method Record(outputs: seq<Output>, generated: OMap<seq<string>>, batch: seq<Output>)
    returns (outputs': seq<Output>, generated': OMap<seq<string>>)
    requires generated == Generated(outputs)
    ensures outputs' == outputs + batch
    ensures generated' == Generated(outputs')
  {
    outputs', generated' := outputs, generated;
    for i := 0 to |batch|
      invariant outputs' == outputs + batch[..i]
      invariant generated' == Generated(outputs')
    {
      GeneratedSnoc(outputs', batch[i]);
      generated' := Put(generated', batch[i].path, batch[i].from);
      outputs' := outputs' + [batch[i]];
      assert batch[..i + 1] == batch[..i] + [batch[i]];
    }
    assert batch[..|batch|] == batch;
  }

  lemma AgentOfParsed(d: SourceDoc, header: Header, body: string)
    requires Parse(d.text) == Parsed(header, body)
    ensures var name := if "name" in header then header["name"] else d.stem;
      AgentOf(d) == AgentMeta(d.path, name,
        if "description" in header then header["description"] else InferDesc(body, name),
        body, Slugify(name))
  {
  }

  /** One iteration of the loop filling `agent_metadata`. */
  method ParseAgent(d: SourceDoc) returns (m: AgentMeta)
    ensures m == AgentOf(d)
  {
    var header, body := ParseFrontmatter(d.text);
    var name := if "name" in header then header["name"] else d.stem;
    var desc;
    if "description" in header {
      desc := header["description"];
    } else {
      desc := InferDescription(body, name);
    }
    AgentOfParsed(d, header, body);
    m := AgentMeta(d.path, name, desc, body, Slugify(name));
  }

  /** `agent_metadata`: one record per agent file, in order. */
  function AgentsOf(docs: seq<SourceDoc>): (r: seq<AgentMeta>)
    ensures |r| == |docs|
  {
    MapSeq(docs, AgentOf)
  }

  lemma AgentsOfAt(docs: seq<SourceDoc>, i: nat)
    requires i < |docs|
    ensures AgentsOf(docs)[i] == AgentOf(docs[i])
  {
    MapSeqAt(docs, AgentOf, i);
  }

  /** The source's loop filling `agent_metadata`. */
  method ParseAgents(docs: seq<SourceDoc>) returns (metas: seq<AgentMeta>)
    ensures metas == AgentsOf(docs)
  {
    metas := [];
    for i := 0 to |docs|
      invariant metas == AgentsOf(docs[..i])
    {
      var m := ParseAgent(docs[i]);
      MapSeqStep(docs, i, metas, m, AgentOf);
      metas := metas + [m];
    }
    assert docs[..|docs|] == docs;
  }

  /** `src_files`: the files under `.claude`, then `CLAUDE.md`. */
  function SourceFiles(p: Project): seq<string> {
    p.claudeFiles + if p.claudeMd.Some? then [p.claudeMd.value.path] else []
  }

  /** The `notes` list (lines 233-239). */
  function Notes(servers: nat, agents: nat): seq<string> {
    [ServerNote(servers)] + if agents > 0 then [AgentNote(agents)] else []
  }

  /** The note on the servers found, or on their absence. */
  function ServerNote(servers: nat): string {
    if servers > 0 then "- Extracted " + Decimal(servers) + " MCP server(s) from settings files."
    else "- No MCP servers found in .claude settings."
  }

  /** The note on the agents parsed. */
  function AgentNote(agents: nat): string {
    "- Parsed " + Decimal(agents) + " agent(s) with frontmatter metadata."
  }

  function Bullets(xs: seq<string>): (r: seq<string>)
    ensures |r| == |xs| && forall i :: 0 <= i < |xs| ==> r[i] == "- " + xs[i]
  {
    MapSeqAll(xs, (x: string) => "- " + x);
    MapSeq(xs, (x: string) => "- " + x)
  }

  const Heading := ["# Migration Report\n"]
  const FollowUps := ["\n## Manual follow-ups\n",
                      "- Review generated opencode.jsonc and adjust as needed.\n",
                      "- If MCP servers were found, follow the setup instructions in MCP.md.\n"]

  /** The `report` list (lines 241-253). */
  function ReportLines(t: Target, sources: seq<string>, generated: OMap<seq<string>>, notes: seq<string>): seq<string> {
    PathLessIsStrictTotal();
    StrLessIsStrictTotal();
    Heading + ["Target: `" + TargetName(t) + "`\n", "## Source files discovered\n"]
    + Bullets(SortUnique(sources, PathLess))
    + ["\n## Generated files\n"]
    + Bullets(SortUnique(Keys(generated), StrLess))
    + ["\n## Notes\n"] + notes + FollowUps
  }

  /** A list of strings as a JSON array's items. */
  function Strings(xs: seq<string>): (r: seq<Json>)
    ensures |r| == |xs| && forall i :: 0 <= i < |xs| ==> r[i] == JString(xs[i])
  {
    MapSeqAll(xs, (x: string) => JString(x));
    MapSeq(xs, (x: string) => JString(x))
  }

  /** One member of `manifest["generated"]`: `{"from": [...]}`. */
  function ManifestEntry(e: (string, seq<string>)): (string, Json) {
    (e.0, JObject([("from", JArray(Strings(e.1)))]))
  }

  /** `manifest`: the target and, per generated path, `{"from": [...]}`. */
  function ManifestJson(t: Target, generated: OMap<seq<string>>): Json {
    JObject([("target", JString(TargetName(t))),
             ("generated", JObject(MapSeq(generated, ManifestEntry)))])
  }

  /** The manifest names the target and lists the generated paths in the
      order they were first recorded, each with as many sources as its
      `from` list. */
  lemma ManifestShape(t: Target, generated: OMap<seq<string>>)
    ensures var m := ManifestJson(t, generated).members;
      && Lookup(m, "target") == Some(JString(TargetName(t)))
      && Lookup(m, "generated").Some? && Lookup(m, "generated").value.JObject?
      && Keys(Lookup(m, "generated").value.members) == Keys(generated)
      && forall i :: 0 <= i < |generated| ==>
           Lookup(m, "generated").value.members[i].1 == JObject([("from", JArray(Strings(generated[i].1)))])
  {
    var m := ManifestJson(t, generated).members;
    IndexOfIs(m, "target", 0);
    IndexOfIs(m, "generated", 1);
    MapSeqAll(generated, ManifestEntry);
  }

  /** What `convert` produces for a project. */
  function Run(t: Target, p: Project, dumps: Json -> string): Conversion {
    var rules := RulesOutputs(p.claudeMd);
    match Extract(p.settings)
    case Crashed => Aborted(rules)
    case Done(ss) =>
      var agents := AgentsOf(p.agents);
      var outs := rules + TargetOutputs(t, agents, p.skills, p.commands, ss, dumps);
      var gen := Generated(outs);
      var lines := ReportLines(t, SourceFiles(p), gen, Notes(|ss|, |agents|));
      Completed(outs, gen, Join("\n", lines), ManifestJson(t, gen))
  }

  /** `cfg` as the source fills it: the block is built only when there are
      servers and attached only when non-empty. */
  method BuildConfig(ss: seq<ServerEntry>) returns (cfg: Json)
    ensures cfg == OpenCodeConfig(ss)
  {
    var members := [("$schema", JString(Schema)),
                    ("instructions", JArray([JString("./AGENTS.md"), JString("./.opencode/instructions/skills/")]))];
    if ss != [] {
      var block := BuildMcpBlock(ss);
      if block != [] {
        assert IndexOf(members, "mcp").None?;
        members := Put(members, "mcp", JObject(block));
      }
    }
    cfg := JObject(members);
  }

  /** The per-target part of `convert` (lines 129-230): each file is
      written and recorded in turn. */
  method WriteTarget(t: Target, outputs: seq<Output>, generated: OMap<seq<string>>,
                     agents: seq<AgentMeta>, skills: seq<SourceDoc>, commands: seq<SourceDoc>,
                     ss: seq<ServerEntry>, dumps: Json -> string)
    returns (outputs': seq<Output>, generated': OMap<seq<string>>)
    requires generated == Generated(outputs)
    ensures outputs' == outputs + TargetOutputs(t, agents, skills, commands, ss, dumps)
    ensures generated' == Generated(outputs')
  {
    var mcpLines := BuildMcpLines(t, ss, dumps);
    var mcp := Output("MCP.md", Join("\n", mcpLines), Sources(ss));
    var skillFiles := SkillOutputs(t, skills);
    var commandFiles := CommandOutputs(t, commands);
    ghost var written: seq<Output>;
    if t == OpenCode {
      var prompts := MapSeq(agents, PromptOutput);
      outputs', generated' := Record(outputs, generated, [mcp]);
      written := [mcp];
      outputs', generated' := Record(outputs', generated', prompts);
      AppendAssoc(outputs, written, prompts);
      written := written + prompts;
      outputs', generated' := Record(outputs', generated', skillFiles);
      AppendAssoc(outputs, written, skillFiles);
      written := written + skillFiles;
      outputs', generated' := Record(outputs', generated', commandFiles);
      AppendAssoc(outputs, written, commandFiles);
      written := written + commandFiles;
      var cfg := BuildConfig(ss);
      var config := Output("opencode.jsonc", dumps(cfg) + "\n", []);
      outputs', generated' := Record(outputs', generated', [config]);
      AppendAssoc(outputs, written, [config]);
      written := written + [config];
    } else {
      var agentFiles := MapSeq(agents, AgentOutput);
      outputs', generated' := Record(outputs, generated, agentFiles);
      written := agentFiles;
      outputs', generated' := Record(outputs', generated', skillFiles);
      AppendAssoc(outputs, written, skillFiles);
      written := written + skillFiles;
      outputs', generated' := Record(outputs', generated', commandFiles);
      AppendAssoc(outputs, written, commandFiles);
      written := written + commandFiles;
      outputs', generated' := Record(outputs', generated', [mcp]);
      AppendAssoc(outputs, written, [mcp]);
      written := written + [mcp];
    }
    assert written == TargetOutputs(t, agents, skills, commands, ss, dumps);
  }

  /** The source's `notes` appends. */
  method BuildNotes(servers: nat, agents: nat) returns (notes: seq<string>)
    ensures notes == Notes(servers, agents)
  {
    notes := [];
    if servers > 0 {
      notes := notes + ["- Extracted " + Decimal(servers) + " MCP server(s) from settings files."];
    } else {
      notes := notes + ["- No MCP servers found in .claude settings."];
    }
    if agents > 0 {
      notes := notes + ["- Parsed " + Decimal(agents) + " agent(s) with frontmatter metadata."];
    }
  }

  /** The `# Rules` step (lines 96-106): `CLAUDE.md`, when found, joins the
      source files and becomes `AGENTS.md`. */
  method WriteRules(claudeFiles: seq<string>, claudeMd: Option<SourceDoc>)
    returns (sources: seq<string>, outputs: seq<Output>, generated: OMap<seq<string>>)
    ensures sources == claudeFiles + if claudeMd.Some? then [claudeMd.value.path] else []
    ensures outputs == RulesOutputs(claudeMd) && generated == Generated(outputs)
  {
    sources, outputs, generated := claudeFiles, [], [];
    if claudeMd.Some? {
      sources := sources + [claudeMd.value.path];
      outputs, generated := Record(outputs, generated, [RulesOutput(claudeMd.value)]);
    }
  }

  /** The body of `convert`. `dir` is the chosen output directory under
      `.migration_out`. */
  method Convert(t: Target, p: Project, dumps: Json -> string) returns (dir: string, r: Conversion)
    ensures IsChoice(TargetName(t), p.existing, dir)
    ensures r == Run(t, p, dumps)
  {
    dir := ChooseOutputDir(TargetName(t), p.existing);
    var sources, outputs, generated := WriteRules(p.claudeFiles, p.claudeMd);
    var found := ExtractMcpConfig(p.settings);
    if found.Crashed? {
      return dir, Aborted(outputs);
    }
    var ss := found.value;
    var agents := ParseAgents(p.agents);
    outputs, generated := WriteTarget(t, outputs, generated, agents, p.skills, p.commands, ss, dumps);
    var notes := BuildNotes(|ss|, |agents|);
    var report := ReportLines(t, sources, generated, notes);
    r := Completed(outputs, generated, Join("\n", report), ManifestJson(t, generated));
  }

  /** A completed run writes `AGENTS.md` (if any) and then the target's
      files, and its manifest records exactly those. */
  lemma RunWrites(t: Target, p: Project, dumps: Json -> string)
    requires Run(t, p, dumps).Completed?
    ensures Extract(p.settings).Done?
    ensures var outs := RulesOutputs(p.claudeMd)
          + TargetOutputs(t, AgentsOf(p.agents), p.skills, p.commands, Extract(p.settings).value, dumps);
      && Run(t, p, dumps).outputs == outs
      && Run(t, p, dumps).generated == Generated(outs)
  {
  }

  /** `MCP.md` comes after every other file that could share its path. */
  lemma McpLast(t: Target, rules: seq<Output>, agents: seq<AgentMeta>, skills: seq<SourceDoc>,
                commands: seq<SourceDoc>, ss: seq<ServerEntry>, dumps: Json -> string)
    ensures Lookup(Generated(rules + TargetOutputs(t, agents, skills, commands, ss, dumps)), "MCP.md")
         == Some(Sources(ss))
  {
    var mcp := McpOutput(t, ss, dumps);
    var skillFiles, commandFiles := SkillOutputs(t, skills), CommandOutputs(t, commands);
    if t == OpenCode {
      var prompts := MapSeq(agents, PromptOutput);
      var config := ConfigOutput(ss, dumps);
      var after := prompts + skillFiles + commandFiles + [config];
      PromptsUnder(agents);
      SkillsUnder(t, skills);
      CommandsUnder(t, commands);
      UnderAvoids(prompts, ".opencode/prompts/", "MCP.md", 0);
      UnderAvoids(skillFiles, SkillDir(t), "MCP.md", 0);
      UnderAvoids(commandFiles, CommandDir(t), "MCP.md", 0);
      AvoidsAppend(prompts, skillFiles, "MCP.md");
      AvoidsAppend(prompts + skillFiles, commandFiles, "MCP.md");
      AvoidsAppend(prompts + skillFiles + commandFiles, [config], "MCP.md");
      AppendAssoc([mcp], prompts, skillFiles);
      AppendAssoc([mcp], prompts + skillFiles, commandFiles);
      AppendAssoc([mcp], prompts + skillFiles + commandFiles, [config]);
      AppendAssoc(rules, [mcp], after);
      assert TargetOutputs(t, agents, skills, commands, ss, dumps) == [mcp] + after;
      RecordedLast(rules, mcp, after);
    } else {
      var files := MapSeq(agents, AgentOutput) + skillFiles + commandFiles;
      AppendAssoc(rules, files, [mcp]);
      assert TargetOutputs(t, agents, skills, commands, ss, dumps) == files + [mcp];
      assert rules + files + [mcp] + [] == rules + files + [mcp];
      RecordedLast(rules + files, mcp, []);
    }
  }

  /** `MCP.md` is always written, and the manifest records it with one
      source per server entry, duplicates kept. */
  lemma McpRecorded(t: Target, p: Project, dumps: Json -> string)
    requires Run(t, p, dumps).Completed?
    ensures Lookup(Run(t, p, dumps).generated, "MCP.md") == Some(Sources(Extract(p.settings).value))
  {
    RunWrites(t, p, dumps);
    McpLast(t, RulesOutputs(p.claudeMd), AgentsOf(p.agents), p.skills, p.commands, Extract(p.settings).value, dumps);
  }

  /** `opencode.jsonc` is the last file written. */
  lemma ConfigLast(rules: seq<Output>, agents: seq<AgentMeta>, skills: seq<SourceDoc>,
                   commands: seq<SourceDoc>, ss: seq<ServerEntry>, dumps: Json -> string)
    ensures Lookup(Generated(rules + TargetOutputs(OpenCode, agents, skills, commands, ss, dumps)), "opencode.jsonc")
         == Some([])
  {
    var files := [McpOutput(OpenCode, ss, dumps)] + MapSeq(agents, PromptOutput)
      + SkillOutputs(OpenCode, skills) + CommandOutputs(OpenCode, commands);
    var config := ConfigOutput(ss, dumps);
    AppendAssoc(rules, files, [config]);
    assert rules + files + [config] + [] == rules + files + [config];
    RecordedLast(rules + files, config, []);
  }

  /** An opencode run records `opencode.jsonc` with no sources. */
  lemma ConfigRecorded(p: Project, dumps: Json -> string)
    requires Run(OpenCode, p, dumps).Completed?
    ensures Lookup(Run(OpenCode, p, dumps).generated, "opencode.jsonc") == Some([])
  {
    RunWrites(OpenCode, p, dumps);
    ConfigLast(RulesOutputs(p.claudeMd), AgentsOf(p.agents), p.skills, p.commands, Extract(p.settings).value, dumps);
  }

  /** No file of either target is written to `AGENTS.md`. */
  lemma TargetAvoidsRules(t: Target, agents: seq<AgentMeta>, skills: seq<SourceDoc>,
                          commands: seq<SourceDoc>, ss: seq<ServerEntry>, dumps: Json -> string)
    ensures Avoids(TargetOutputs(t, agents, skills, commands, ss, dumps), "AGENTS.md")
  {
    var skillFiles, commandFiles := SkillOutputs(t, skills), CommandOutputs(t, commands);
    SkillsUnder(t, skills);
    CommandsUnder(t, commands);
    UnderAvoids(skillFiles, SkillDir(t), "AGENTS.md", 0);
    UnderAvoids(commandFiles, CommandDir(t), "AGENTS.md", 0);
    if t == OpenCode {
      OpenCodeAvoidsRules(agents, skillFiles, commandFiles, ss, dumps);
    } else {
      CodexAvoidsRules(agents, skillFiles, commandFiles, ss, dumps);
    }
  }

  lemma OpenCodeAvoidsRules(agents: seq<AgentMeta>, skillFiles: seq<Output>, commandFiles: seq<Output>,
                            ss: seq<ServerEntry>, dumps: Json -> string)
    requires Avoids(skillFiles, "AGENTS.md") && Avoids(commandFiles, "AGENTS.md")
    ensures Avoids([McpOutput(OpenCode, ss, dumps)] + MapSeq(agents, PromptOutput) + skillFiles
                   + commandFiles + [ConfigOutput(ss, dumps)], "AGENTS.md")
  {
    var mcp, prompts := [McpOutput(OpenCode, ss, dumps)], MapSeq(agents, PromptOutput);
    PromptsUnder(agents);
    UnderAvoids(prompts, ".opencode/prompts/", "AGENTS.md", 0);
    AvoidsAppend(mcp, prompts, "AGENTS.md");
    AvoidsAppend(mcp + prompts, skillFiles, "AGENTS.md");
    AvoidsAppend(mcp + prompts + skillFiles, commandFiles, "AGENTS.md");
    AvoidsAppend(mcp + prompts + skillFiles + commandFiles, [ConfigOutput(ss, dumps)], "AGENTS.md");
  }

  lemma CodexAvoidsRules(agents: seq<AgentMeta>, skillFiles: seq<Output>, commandFiles: seq<Output>,
                         ss: seq<ServerEntry>, dumps: Json -> string)
    requires Avoids(skillFiles, "AGENTS.md") && Avoids(commandFiles, "AGENTS.md")
    ensures Avoids(MapSeq(agents, AgentOutput) + skillFiles + commandFiles + [McpOutput(Codex, ss, dumps)],
                   "AGENTS.md")
  {
    var files := MapSeq(agents, AgentOutput);
    AgentsUnder(agents);
    UnderAvoids(files, "agents/", "AGENTS.md", 0);
    AvoidsAppend(files, skillFiles, "AGENTS.md");
    AvoidsAppend(files + skillFiles, commandFiles, "AGENTS.md");
    AvoidsAppend(files + skillFiles + commandFiles, [McpOutput(Codex, ss, dumps)], "AGENTS.md");
  }

  /** A run stops early exactly when the MCP extraction raises, and then
      has written `AGENTS.md` only. */
  lemma RunAborts(t: Target, p: Project, dumps: Json -> string)
    ensures Run(t, p, dumps).Aborted? <==> Extract(p.settings).Crashed?
    ensures Run(t, p, dumps).Aborted? ==> Run(t, p, dumps).outputs == RulesOutputs(p.claudeMd)
  {
  }

  /** `AGENTS.md` keeps its record when no later file has that path. */
  lemma RulesFirst(md: SourceDoc, after: seq<Output>)
    requires Avoids(after, "AGENTS.md")
    ensures Lookup(Generated(RulesOutputs(Some(md)) + after), "AGENTS.md") == Some([md.path])
  {
    assert RulesOutputs(Some(md)) == [] + [RulesOutput(md)];
    RecordedLast([], RulesOutput(md), after);
  }

  /** With a `CLAUDE.md`, `AGENTS.md` is written first and recorded with
      that file as its source. */
  lemma RulesRecorded(t: Target, p: Project, dumps: Json -> string)
    requires p.claudeMd.Some? && Run(t, p, dumps).Completed?
    ensures Lookup(Run(t, p, dumps).generated, "AGENTS.md") == Some([p.claudeMd.value.path])
  {
    RunWrites(t, p, dumps);
    var ss := Extract(p.settings).value;
    TargetAvoidsRules(t, AgentsOf(p.agents), p.skills, p.commands, ss, dumps);
    RulesFirst(p.claudeMd.value, TargetOutputs(t, AgentsOf(p.agents), p.skills, p.commands, ss, dumps));
  }

  /** The manifest key an agent's file gets under each target. */
  function AgentKey(t: Target, slug: string): string {
    if t == OpenCode then ".opencode/prompts/" + slug + ".txt" else "agents/" + slug + ".md"
  }

  /** Files of other agents avoid this agent's key unless they share its
      slug. */
  lemma {:induction false} OtherPromptsAvoid(agents: seq<AgentMeta>, i: nat)
    requires i < |agents| && forall j :: i < j < |agents| ==> agents[j].slug != agents[i].slug
    ensures Avoids(MapSeq(agents, PromptOutput)[i + 1..], AgentKey(OpenCode, agents[i].slug))
  {
    PromptPaths(agents);
    var rest := MapSeq(agents, PromptOutput)[i + 1..];
    forall j | 0 <= j < |rest| ensures rest[j].path != AgentKey(OpenCode, agents[i].slug) {
      var k := i + 1 + j;
      assert rest[j].path == ".opencode/prompts/" + agents[k].slug + ".txt";
      if rest[j].path == AgentKey(OpenCode, agents[i].slug) {
        AffixInjective(".opencode/prompts/", agents[k].slug, agents[i].slug, ".txt");
      }
    }
  }

  lemma {:induction false} OtherAgentFilesAvoid(agents: seq<AgentMeta>, i: nat)
    requires i < |agents| && forall j :: i < j < |agents| ==> agents[j].slug != agents[i].slug
    ensures Avoids(MapSeq(agents, AgentOutput)[i + 1..], AgentKey(Codex, agents[i].slug))
  {
    AgentPaths(agents);
    var rest := MapSeq(agents, AgentOutput)[i + 1..];
    forall j | 0 <= j < |rest| ensures rest[j].path != AgentKey(Codex, agents[i].slug) {
      var k := i + 1 + j;
      assert rest[j].path == "agents/" + agents[k].slug + ".md";
      if rest[j].path == AgentKey(Codex, agents[i].slug) {
        AffixInjective("agents/", agents[k].slug, agents[i].slug, ".md");
      }
    }
  }

  lemma PromptKeyChar(slug: string)
    ensures |AgentKey(OpenCode, slug)| > 10
    ensures AgentKey(OpenCode, slug)[0] == '.' && AgentKey(OpenCode, slug)[10] == 'p'
  {
  }

  /** Skill and command files and `opencode.jsonc` avoid every path under
      `.opencode/p`. */
  lemma PromptKeyAvoidsLater(skillFiles: seq<Output>, commandFiles: seq<Output>, config: Output, key: string)
    requires AllUnder(skillFiles, SkillDir(OpenCode)) && AllUnder(commandFiles, CommandDir(OpenCode))
    requires config.path == "opencode.jsonc"
    requires |key| > 10 && key[0] == '.' && key[10] == 'p'
    ensures Avoids(skillFiles + commandFiles + [config], key)
  {
    UnderAvoids(skillFiles, SkillDir(OpenCode), key, 10);
    UnderAvoids(commandFiles, CommandDir(OpenCode), key, 10);
    AvoidsAppend(skillFiles, commandFiles, key);
    AvoidsAppend(skillFiles + commandFiles, [config], key);
  }

  lemma PromptLastWins(rules: seq<Output>, agents: seq<AgentMeta>, skills: seq<SourceDoc>,
                       commands: seq<SourceDoc>, ss: seq<ServerEntry>, dumps: Json -> string, i: nat)
    requires i < |agents| && forall j :: i < j < |agents| ==> agents[j].slug != agents[i].slug
    ensures Lookup(Generated(rules + TargetOutputs(OpenCode, agents, skills, commands, ss, dumps)),
                   AgentKey(OpenCode, agents[i].slug)) == Some([agents[i].file])
  {
    var key := AgentKey(OpenCode, agents[i].slug);
    var skillFiles, commandFiles := SkillOutputs(OpenCode, skills), CommandOutputs(OpenCode, commands);
    var mcp := McpOutput(OpenCode, ss, dumps);
    var prompts := MapSeq(agents, PromptOutput);
    var config := ConfigOutput(ss, dumps);
    OtherPromptsAvoid(agents, i);
    MapSeqAt(agents, PromptOutput, i);
    PromptKeyChar(agents[i].slug);
    SkillsUnder(OpenCode, skills);
    CommandsUnder(OpenCode, commands);
    PromptKeyAvoidsLater(skillFiles, commandFiles, config, key);
    var after := skillFiles + commandFiles + [config];
    AppendAssoc([mcp] + prompts, skillFiles, commandFiles);
    AppendAssoc([mcp] + prompts, skillFiles + commandFiles, [config]);
    AppendAssoc(rules, [mcp] + prompts, after);
    AppendAssoc(rules, [mcp], prompts);
    assert TargetOutputs(OpenCode, agents, skills, commands, ss, dumps) == [mcp] + prompts + after;
    RecordedLastOfBlock(rules + [mcp], prompts, i, after);
  }

  lemma AgentFileLastWins(rules: seq<Output>, agents: seq<AgentMeta>, skills: seq<SourceDoc>,
                          commands: seq<SourceDoc>, ss: seq<ServerEntry>, dumps: Json -> string, i: nat)
    requires i < |agents| && forall j :: i < j < |agents| ==> agents[j].slug != agents[i].slug
    ensures Lookup(Generated(rules + TargetOutputs(Codex, agents, skills, commands, ss, dumps)),
                   AgentKey(Codex, agents[i].slug)) == Some([agents[i].file])
  {
    var key := AgentKey(Codex, agents[i].slug);
    var skillFiles, commandFiles := SkillOutputs(Codex, skills), CommandOutputs(Codex, commands);
    var mcp := McpOutput(Codex, ss, dumps);
    var files := MapSeq(agents, AgentOutput);
    SkillsUnder(Codex, skills);
    CommandsUnder(Codex, commands);
    OtherAgentFilesAvoid(agents, i);
    MapSeqAt(agents, AgentOutput, i);
    UnderAvoids(skillFiles, SkillDir(Codex), key, 0);
    UnderAvoids(commandFiles, CommandDir(Codex), key, 0);
    AvoidsAppend(skillFiles, commandFiles, key);
    AvoidsAppend(skillFiles + commandFiles, [mcp], key);
    var after := skillFiles + commandFiles + [mcp];
    AppendAssoc(files, skillFiles, commandFiles);
    AppendAssoc(files, skillFiles + commandFiles, [mcp]);
    AppendAssoc(rules, files, after);
    assert TargetOutputs(Codex, agents, skills, commands, ss, dumps) == files + after;
    RecordedLastOfBlock(rules, files, i, after);
  }

  /** In a completed run, an agent file's manifest entry names the last
      agent file whose name has the same slug. */
  lemma SameSlugLastWins(t: Target, p: Project, dumps: Json -> string, i: nat)
    requires Run(t, p, dumps).Completed? && i < |p.agents|
    requires forall j :: i < j < |p.agents| ==> AgentsOf(p.agents)[j].slug != AgentsOf(p.agents)[i].slug
    ensures Lookup(Run(t, p, dumps).generated, AgentKey(t, AgentsOf(p.agents)[i].slug)) == Some([p.agents[i].path])
  {
    RunWrites(t, p, dumps);
    AgentsOfAt(p.agents, i);
    AgentFields(p.agents[i]);
    if t == OpenCode {
      PromptLastWins(RulesOutputs(p.claudeMd), AgentsOf(p.agents), p.skills, p.commands,
                     Extract(p.settings).value, dumps, i);
    } else {
      AgentFileLastWins(RulesOutputs(p.claudeMd), AgentsOf(p.agents), p.skills, p.commands,
                        Extract(p.settings).value, dumps, i);
    }
  }

  /** In a block of files written under `dir` as `<name>.md`, one per
      name, the files after the `i`-th avoid its path unless they share its
      name. */
  lemma {:induction false} LaterNamesAvoid(outs: seq<Output>, dir: string, names: seq<string>, i: nat)
    requires |outs| == |names| && i < |names|
    requires forall j :: 0 <= j < |outs| ==> outs[j].path == dir + names[j] + ".md"
    requires forall j :: i < j < |names| ==> names[j] != names[i]
    ensures Avoids(outs[i + 1..], dir + names[i] + ".md")
  {
    var rest := outs[i + 1..];
    forall j | 0 <= j < |rest| ensures rest[j].path != dir + names[i] + ".md" {
      var k := i + 1 + j;
      assert rest[j] == outs[k];
      if rest[j].path == dir + names[i] + ".md" {
        AffixInjective(dir, names[k], names[i], ".md");
      }
    }
  }

  /** The slugs of the documents' names, one per document. */
  function Slugs(docs: seq<SourceDoc>): (r: seq<string>)
    ensures |r| == |docs|
  {
    MapSeq(docs, (d: SourceDoc) => Slugify(d.stem))
  }

  lemma SlugsAt(docs: seq<SourceDoc>, i: nat)
    requires i < |docs|
    ensures Slugs(docs)[i] == Slugify(docs[i].stem)
  {
    MapSeqAt(docs, (d: SourceDoc) => Slugify(d.stem), i);
  }

  /** The file written after the commands: `opencode.jsonc` or `MCP.md`. */
  function LastOutput(t: Target, ss: seq<ServerEntry>, dumps: Json -> string): Output {
    if t == OpenCode then ConfigOutput(ss, dumps) else McpOutput(t, ss, dumps)
  }

  /** The files written before the skills: `MCP.md` and the prompts, or the
      agent files. */
  function AgentBlock(t: Target, agents: seq<AgentMeta>, ss: seq<ServerEntry>, dumps: Json -> string): seq<Output> {
    if t == OpenCode then [McpOutput(t, ss, dumps)] + MapSeq(agents, PromptOutput) else MapSeq(agents, AgentOutput)
  }

  lemma TargetBlocks(t: Target, rules: seq<Output>, agents: seq<AgentMeta>, skills: seq<SourceDoc>,
                     commands: seq<SourceDoc>, ss: seq<ServerEntry>, dumps: Json -> string)
    ensures var front := rules + AgentBlock(t, agents, ss, dumps);
      && rules + TargetOutputs(t, agents, skills, commands, ss, dumps)
         == front + SkillOutputs(t, skills) + (CommandOutputs(t, commands) + [LastOutput(t, ss, dumps)])
      && rules + TargetOutputs(t, agents, skills, commands, ss, dumps)
         == (front + SkillOutputs(t, skills)) + CommandOutputs(t, commands) + [LastOutput(t, ss, dumps)]
  {
    var block, skillFiles, commandFiles := AgentBlock(t, agents, ss, dumps), SkillOutputs(t, skills), CommandOutputs(t, commands);
    var last := LastOutput(t, ss, dumps);
    assert TargetOutputs(t, agents, skills, commands, ss, dumps) == block + skillFiles + commandFiles + [last];
    AppendAssoc(block + skillFiles, commandFiles, [last]);
    AppendAssoc(block, skillFiles, commandFiles + [last]);
    AppendAssoc(rules, block, skillFiles + (commandFiles + [last]));
    AppendAssoc(rules + block, skillFiles, commandFiles + [last]);
    AppendAssoc(rules + block + skillFiles, commandFiles, [last]);
    AppendAssoc(rules, block + skillFiles + commandFiles, [last]);
    AppendAssoc(rules, block + skillFiles, commandFiles);
    AppendAssoc(rules, block, skillFiles);
  }

  /** Each skill file is named after its skill's slug and records it. */
  lemma SkillsNamed(t: Target, skills: seq<SourceDoc>)
    ensures forall j :: 0 <= j < |skills| ==>
      SkillOutputs(t, skills)[j].path == SkillDir(t) + Slugs(skills)[j] + ".md"
      && SkillOutputs(t, skills)[j].from == [skills[j].path]
  {
    forall j | 0 <= j < |skills|
      ensures SkillOutputs(t, skills)[j].path == SkillDir(t) + Slugs(skills)[j] + ".md"
      ensures SkillOutputs(t, skills)[j].from == [skills[j].path]
    {
      SlugsAt(skills, j);
      MapSeqAt(skills, (d: SourceDoc) => SkillOutput(t, d), j);
    }
  }

  lemma CommandsNamed(t: Target, commands: seq<SourceDoc>)
    ensures forall j :: 0 <= j < |commands| ==>
      CommandOutputs(t, commands)[j].path == CommandDir(t) + Slugs(commands)[j] + ".md"
      && CommandOutputs(t, commands)[j].from == [commands[j].path]
  {
    forall j | 0 <= j < |commands|
      ensures CommandOutputs(t, commands)[j].path == CommandDir(t) + Slugs(commands)[j] + ".md"
      ensures CommandOutputs(t, commands)[j].from == [commands[j].path]
    {
      SlugsAt(commands, j);
      MapSeqAt(commands, (d: SourceDoc) => CommandOutput(t, d), j);
    }
  }

  /** The last file of a target avoids every skill and command path. */
  lemma LastAvoids(t: Target, ss: seq<ServerEntry>, dumps: Json -> string, dir: string, name: string)
    requires dir == SkillDir(t) || dir == CommandDir(t)
    ensures Avoids([LastOutput(t, ss, dumps)], dir + name + ".md")
  {
    assert LastOutput(t, ss, dumps).path[0] != (dir + name + ".md")[0];
  }

  /** Files under `dir` avoid the paths under a directory `other` that
      leaves `dir` at position `k`. */
  lemma UnderAvoidsDir(outs: seq<Output>, dir: string, other: string, name: string, k: nat)
    requires AllUnder(outs, dir) && k < |dir| && k < |other| && dir[k] != other[k]
    ensures Avoids(outs, other + name + ".md")
  {
    assert (other + name + ".md")[k] == other[k];
    UnderAvoids(outs, dir, other + name + ".md", k);
  }

  /** Command files avoid every skill path. */
  lemma CommandsAvoidSkill(t: Target, commands: seq<SourceDoc>, name: string)
    ensures Avoids(CommandOutputs(t, commands), SkillDir(t) + name + ".md")
  {
    CommandsUnder(t, commands);
    var k := DirsDiffer(t);
    UnderAvoidsDir(CommandOutputs(t, commands), CommandDir(t), SkillDir(t), name, k);
  }

  /** The command and skill directories part at character `k`. */
  lemma DirsDiffer(t: Target) returns (k: nat)
    ensures k < |CommandDir(t)| && k < |SkillDir(t)| && CommandDir(t)[k] != SkillDir(t)[k]
  {
    k := if t == OpenCode then 10 else 0;
  }

  /** Within the skill files, the `i`-th is recorded with its own source
      when no later skill has the same slug and nothing after the block
      has its path. */
  lemma SkillLastInBlock(before: seq<Output>, t: Target, skills: seq<SourceDoc>, i: nat, after: seq<Output>)
    requires i < |skills| && forall j :: i < j < |skills| ==> Slugs(skills)[j] != Slugs(skills)[i]
    requires Avoids(after, SkillDir(t) + Slugs(skills)[i] + ".md")
    ensures Lookup(Generated(before + SkillOutputs(t, skills) + after), SkillDir(t) + Slugs(skills)[i] + ".md")
         == Some([skills[i].path])
  {
    SkillsNamed(t, skills);
    LaterNamesAvoid(SkillOutputs(t, skills), SkillDir(t), Slugs(skills), i);
    RecordedLastOfBlock(before, SkillOutputs(t, skills), i, after);
  }

  lemma CommandLastInBlock(before: seq<Output>, t: Target, commands: seq<SourceDoc>, i: nat, after: seq<Output>)
    requires i < |commands| && forall j :: i < j < |commands| ==> Slugs(commands)[j] != Slugs(commands)[i]
    requires Avoids(after, CommandDir(t) + Slugs(commands)[i] + ".md")
    ensures Lookup(Generated(before + CommandOutputs(t, commands) + after), CommandDir(t) + Slugs(commands)[i] + ".md")
         == Some([commands[i].path])
  {
    CommandsNamed(t, commands);
    LaterNamesAvoid(CommandOutputs(t, commands), CommandDir(t), Slugs(commands), i);
    RecordedLastOfBlock(before, CommandOutputs(t, commands), i, after);
  }

  /** A skill's file is recorded with its own source when no later skill
      has the same slug. */
  lemma SkillLastWins(t: Target, rules: seq<Output>, agents: seq<AgentMeta>, skills: seq<SourceDoc>,
                      commands: seq<SourceDoc>, ss: seq<ServerEntry>, dumps: Json -> string, i: nat)
    requires i < |skills| && forall j :: i < j < |skills| ==> Slugs(skills)[j] != Slugs(skills)[i]
    ensures Lookup(Generated(rules + TargetOutputs(t, agents, skills, commands, ss, dumps)),
                   SkillDir(t) + Slugs(skills)[i] + ".md") == Some([skills[i].path])
  {
    var name := Slugs(skills)[i];
    var after := CommandOutputs(t, commands) + [LastOutput(t, ss, dumps)];
    CommandsAvoidSkill(t, commands, name);
    LastAvoids(t, ss, dumps, SkillDir(t), name);
    AvoidsAppend(CommandOutputs(t, commands), [LastOutput(t, ss, dumps)], SkillDir(t) + name + ".md");
    TargetBlocks(t, rules, agents, skills, commands, ss, dumps);
    SkillLastInBlock(rules + AgentBlock(t, agents, ss, dumps), t, skills, i, after);
  }

  /** A command's file is recorded with its own source when no later
      command has the same slug. */
  lemma CommandLastWins(t: Target, rules: seq<Output>, agents: seq<AgentMeta>, skills: seq<SourceDoc>,
                        commands: seq<SourceDoc>, ss: seq<ServerEntry>, dumps: Json -> string, i: nat)
    requires i < |commands| && forall j :: i < j < |commands| ==> Slugs(commands)[j] != Slugs(commands)[i]
    ensures Lookup(Generated(rules + TargetOutputs(t, agents, skills, commands, ss, dumps)),
                   CommandDir(t) + Slugs(commands)[i] + ".md") == Some([commands[i].path])
  {
    LastAvoids(t, ss, dumps, CommandDir(t), Slugs(commands)[i]);
    TargetBlocks(t, rules, agents, skills, commands, ss, dumps);
    CommandLastInBlock(rules + AgentBlock(t, agents, ss, dumps) + SkillOutputs(t, skills), t, commands, i,
                       [LastOutput(t, ss, dumps)]);
  }

  /** In a completed run, a skill's manifest entry names the last skill
      whose name has the same slug. */
  lemma SameSkillSlugLastWins(t: Target, p: Project, dumps: Json -> string, i: nat)
    requires Run(t, p, dumps).Completed? && i < |p.skills|
    requires forall j :: i < j < |p.skills| ==> Slugs(p.skills)[j] != Slugs(p.skills)[i]
    ensures Lookup(Run(t, p, dumps).generated, SkillDir(t) + Slugs(p.skills)[i] + ".md") == Some([p.skills[i].path])
  {
    RunWrites(t, p, dumps);
    SkillLastWins(t, RulesOutputs(p.claudeMd), AgentsOf(p.agents), p.skills, p.commands,
                  Extract(p.settings).value, dumps, i);
  }

  /** In a completed run, a command's manifest entry names the last command
      whose name has the same slug. */
  lemma SameCommandSlugLastWins(t: Target, p: Project, dumps: Json -> string, i: nat)
    requires Run(t, p, dumps).Completed? && i < |p.commands|
    requires forall j :: i < j < |p.commands| ==> Slugs(p.commands)[j] != Slugs(p.commands)[i]
    ensures Lookup(Run(t, p, dumps).generated, CommandDir(t) + Slugs(p.commands)[i] + ".md")
         == Some([p.commands[i].path])
  {
    RunWrites(t, p, dumps);
    CommandLastWins(t, RulesOutputs(p.claudeMd), AgentsOf(p.agents), p.skills, p.commands,
                    Extract(p.settings).value, dumps, i);
  }

  /** The report lists the source files as `sorted(set(...))` does, and the
      manifest keys sorted: each list is the one strictly increasing
      sequence with the right elements. */
  lemma ReportShape(t: Target, sources: seq<string>, generated: OMap<seq<string>>, notes: seq<string>,
                    sortedSources: seq<string>, sortedKeys: seq<string>)
    requires StrictlySorted(sortedSources, PathLess) && forall y :: y in sortedSources <==> y in sources
    requires StrictlySorted(sortedKeys, StrLess) && forall y :: y in sortedKeys <==> HasKey(generated, y)
    ensures ReportLines(t, sources, generated, notes)
         == Heading + ["Target: `" + TargetName(t) + "`\n", "## Source files discovered\n"]
          + Bullets(sortedSources) + ["\n## Generated files\n"] + Bullets(sortedKeys)
          + ["\n## Notes\n"] + notes + FollowUps
  {
    PathLessIsStrictTotal();
    StrLessIsStrictTotal();
    SortedUnique(SortUnique(sources, PathLess), sortedSources, PathLess);
    forall y ensures y in Keys(generated) <==> HasKey(generated, y) {
      if HasKey(generated, y) {
        var i :| 0 <= i < |generated| && generated[i].0 == y;
        assert Keys(generated)[i] == y;
      }
    }
    SortedUnique(SortUnique(Keys(generated), StrLess), sortedKeys, StrLess);
  }

  lemma DiffersAt(s: string, prefix: string, k: nat)
    requires k < |prefix| && k < |s| && s[k] != prefix[k]
    ensures !StartsWith(s, prefix)
  {
  }

  /** The agent note is there exactly when some agent was parsed, and the
      server-count note exactly when some server entry was found. */
  lemma NotesMention(servers: nat, agents: nat)
    ensures (exists k :: 0 <= k < |Notes(servers, agents)| && StartsWith(Notes(servers, agents)[k], "- Parsed "))
        <==> agents > 0
    ensures (exists k :: 0 <= k < |Notes(servers, agents)| && StartsWith(Notes(servers, agents)[k], "- Extracted "))
        <==> servers > 0
  {
    NotesParsed(servers, agents);
    NotesExtracted(servers, agents);
  }

  lemma NotesParsed(servers: nat, agents: nat)
    ensures (exists k :: 0 <= k < |Notes(servers, agents)| && StartsWith(Notes(servers, agents)[k], "- Parsed "))
        <==> agents > 0
  {
    NoteLines(ServerNote(servers), AgentNote(agents), agents > 0, "- Parsed ");
    NotePrefixes(servers, agents);
    assert Notes(servers, agents) == [ServerNote(servers)] + if agents > 0 then [AgentNote(agents)] else [];
  }

  lemma NotesExtracted(servers: nat, agents: nat)
    ensures (exists k :: 0 <= k < |Notes(servers, agents)| && StartsWith(Notes(servers, agents)[k], "- Extracted "))
        <==> servers > 0
  {
    NoteLines(ServerNote(servers), AgentNote(agents), agents > 0, "- Extracted ");
    NotePrefixes(servers, agents);
    assert Notes(servers, agents) == [ServerNote(servers)] + if agents > 0 then [AgentNote(agents)] else [];
  }

  /** How each note line begins. */
  lemma NotePrefixes(servers: nat, agents: nat)
    ensures StartsWith(ServerNote(servers), "- Extracted ") <==> servers > 0
    ensures !StartsWith(ServerNote(servers), "- Parsed ")
    ensures StartsWith(AgentNote(agents), "- Parsed ") && !StartsWith(AgentNote(agents), "- Extracted ")
  {
    DiffersAt(ServerNote(servers), "- Parsed ", 2);
    DiffersAt(AgentNote(agents), "- Extracted ", 2);
    PrefixOf("- Parsed ", Decimal(agents), " agent(s) with frontmatter metadata.");
    if servers > 0 {
      PrefixOf("- Extracted ", Decimal(servers), " MCP server(s) from settings files.");
    } else {
      DiffersAt(ServerNote(servers), "- Extracted ", 2);
    }
  }

  /** A line of `[first]`, followed by `second` when `more`, starts with
      `prefix` exactly when one of those does. */
  lemma NoteLines(first: string, second: string, more: bool, prefix: string)
    ensures var n := [first] + if more then [second] else [];
      (exists k :: 0 <= k < |n| && StartsWith(n[k], prefix))
        <==> StartsWith(first, prefix) || (more && StartsWith(second, prefix))
  {
    var n := [first] + if more then [second] else [];
    assert n[0] == first;
    if more {
      assert n[1] == second;
    }
  }

  lemma PrefixOf(prefix: string, mid: string, rest: string)
    ensures StartsWith(prefix + mid + rest, prefix)
  {
    assert (prefix + mid + rest)[..|prefix|] == prefix;
  }

  /** The report of a completed run: the target, the discovered source
      files, the manifest keys, then the notes for the servers found and
      the agents parsed. */
  lemma RunReport(t: Target, p: Project, dumps: Json -> string, sortedSources: seq<string>, sortedKeys: seq<string>)
    requires Run(t, p, dumps).Completed?
    requires StrictlySorted(sortedSources, PathLess) && forall y :: y in sortedSources <==> y in SourceFiles(p)
    requires StrictlySorted(sortedKeys, StrLess)
    requires forall y :: y in sortedKeys <==>
      exists i :: 0 <= i < |Run(t, p, dumps).outputs| && Run(t, p, dumps).outputs[i].path == y
    ensures Run(t, p, dumps).report
         == Join("\n", Heading + ["Target: `" + TargetName(t) + "`\n", "## Source files discovered\n"]
              + Bullets(sortedSources) + ["\n## Generated files\n"] + Bullets(sortedKeys)
              + ["\n## Notes\n"] + Notes(|Extract(p.settings).value|, |p.agents|) + FollowUps)
  {
    var r := Run(t, p, dumps);
    RunWrites(t, p, dumps);
    forall y ensures y in sortedKeys <==> HasKey(r.generated, y) {
      GeneratedKeys(r.outputs, y);
    }
    ReportShape(t, SourceFiles(p), r.generated, Notes(|Extract(p.settings).value|, |p.agents|),
                sortedSources, sortedKeys);
  }
}
