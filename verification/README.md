# Claude project migration, modelled in Dafny

`tools/migrate_claude_project.py` converts a project laid out for Claude (a
`CLAUDE.md` rules file and a `.claude/` directory with settings, agents,
skills and commands) into a bundle for one of two targets, `opencode` or
`codex`. It writes the bundle into a fresh directory under `.migration_out`,
with these contents:

- the rules as `AGENTS.md`;
- one file per agent, skill and command;
- an `MCP.md` describing the MCP servers found in the settings files;
- for opencode, an `opencode.jsonc` configuration;
- a migration report;
- a `manifest.json` that records, for every generated path, the source files it came from.

This project models the deterministic logic under that file I/O and proves
what it promises.

The modules follow the script's functions:

| module | file | models |
|---|---|---|
| `Text` | `text.dfy` | Python's `strip`, `lstrip(chars)`, `lower`, `in` on strings, `split(sep, n)`, `splitlines`, `"\n".join`, and decimal formatting of an integer |
| `Order` | `order.dfy` | lexicographic order on strings and on paths (paths compare part by part), and `sorted(set(...))` as the unique strictly increasing list with the given elements |
| `OrderedMap` | `omap.dfy` | a `dict` with string keys: assignment replaces in place or appends, and iteration follows insertion order |
| `Slug` | `slug.dfy` | `slugify` |
| `Frontmatter` | `frontmatter.dfy` | `parse_frontmatter`, with its header-filling loop as a method |
| `Describe` | `describe.dfy` | `infer_desc`, with its two search loops as a method |
| `Json` | `json.dfy` | decoded JSON values, with Python's truthiness, `in` and indexing on them |
| `Mcp` | `mcp.dfy` | the selection logic of `extract_mcp_config`, with its nested appending loops as a method |
| `OutputDir` | `outdir.dfy` | the choice of the output directory, with the numbering `while` loop |
| `Templates` | `templates.dfy` | every file `convert` writes: path, text and `from` list, plus the opencode `mcp` block and configuration |
| `Migration` | `convert.dfy` | `convert` itself: the recording of each write in `manifest["generated"]`, the agent metadata, the notes, the report and the manifest, and the whole run |

The filesystem is an input value, a `Project`, which holds:

- the files found under `.claude`;
- the `CLAUDE.md` found, if any;
- the settings files with what reading and decoding each gave;
- the agent, skill and command files;
- the names already present under `.migration_out`.

A run returns `Completed` with the written files, the `generated` map, the
report text and the manifest. `extract_mcp_config` can raise an exception the
script does not catch:

- a `TypeError` from `in` on a number, boolean or null, or from a string index into a list or string;
- an `AttributeError` from a `servers` value that is not an object.

When it raises, the run is `Aborted` after `AGENTS.md` was written. `json.dumps(..., indent=2)` is a
parameter `dumps` of the model: its text is treated as opaque.

These functions define what the script computes; the members in the table
below state their properties:

- `Frontmatter.Parse`: `parse_frontmatter` (tools/migrate_claude_project.py:37-51).
- `Describe.InferDesc`: `infer_desc` (lines 53-60).
- `Mcp.ServersOf`: the `mcp`/`servers` lookup of one settings document (lines 75-77).
- `Mcp.Extract`: `extract_mcp_config` over the settings files (lines 62-80).
- `Templates.RulesOutput`: `AGENTS.md` (lines 101-106).
- `Templates.McpOutput`: `MCP.md` (lines 130-143 and 219-230).
- `Templates.PromptOutput`: the opencode prompts (lines 145-150).
- `Templates.SkillOutput`: the skill files (lines 157-164 and 202-208).
- `Templates.CommandOutput`: the command files (lines 166-175 and 210-217).
- `Templates.McpBlock` and `Templates.OpenCodeConfig`: the `mcp` block and `opencode.jsonc` (lines 177-193).
- `Templates.AgentOutput`: the codex agent files (lines 196-200).
- `Templates.TargetOutputs`: every file of a target, in order (lines 129-230).
- `Migration.Generated`: `manifest["generated"]` after a run of writes (line 92 and each `manifest["generated"][...] = ...`).
- `Migration.Notes`: the notes (lines 232-239).
- `Migration.ReportLines`: the report (lines 241-253).
- `Migration.ManifestJson`: the manifest (lines 92 and 256).
- `Migration.Run`: `convert` after the output directory is chosen (lines 90-257).

## Model

| member | source | states |
|---|---|---|
| `Text.StripBy` | tools/migrate_claude_project.py:44-45 | the stripped text is a slice of the input that neither starts nor ends with a dropped character |
| `Text.StripByEmpty` | tools/migrate_claude_project.py:58 | stripping leaves nothing exactly when every character is whitespace |
| `Text.StripByAround` | tools/migrate_claude_project.py:13-15 | stripping the dropped characters around a core that starts and ends with kept characters gives that core |
| `Text.StripLeadingSpace` | tools/migrate_claude_project.py:56 | one leading whitespace character in front of trimmed text is stripped away |
| `Text.StripAround` | tools/migrate_claude_project.py:44-45 | `strip()` of text with only whitespace around a core is that core |
| `Text.Lower` | tools/migrate_claude_project.py:13 | `lower()` keeps the length and lower-cases each character |
| `Text.FindFrom` | tools/migrate_claude_project.py:48 | the search finds the first occurrence at or after a position, or reports that there is none |
| `Text.SplitMax` | tools/migrate_claude_project.py:41 | `split(sep, n)` gives at most n+1 parts that join back to the input; every part but the last is free of the separator; each cut is at the leftmost separator of the text that remains (`LeftmostCuts`); the number of cuts and the last part are `Cuts` and `Remainder`, which follow the same scan; the input comes back whole when the separator is absent, and is cut when it is present and n > 0 |
| `Text.SplitMaxLeftmost` | tools/migrate_claude_project.py:41 | for every part but the last, the first separator in the text from that part on sits right after the part; when fewer than n cuts were made, the last part holds no separator |
| `Text.SplitMaxLast` | tools/migrate_claude_project.py:41 | with fewer than n cuts, the last part holds no separator |
| `Text.RemainderFree` | tools/migrate_claude_project.py:41 | when the scan stops before n cuts, what remains holds no separator |
| `Text.LeftmostCutsAt` | tools/migrate_claude_project.py:41 | leftmost cutting, spelled out for the k-th cut |
| `Text.SplitOnce` | tools/migrate_claude_project.py:49 | `split(sep, 1)` on text with a separator gives the text before its first occurrence and the text after it |
| `Text.SplitAtFirst` | tools/migrate_claude_project.py:49 | the text before the first separator holds no separator, and the text is that part, the separator and the rest |
| `Text.LineEnd` | tools/migrate_claude_project.py:47 | a line runs up to the next line break or the end of the text |
| `Text.SplitLines` | tools/migrate_claude_project.py:54 | `splitlines()` gives lines free of line breaks, and no lines exactly for empty text |
| `Text.SplitLinesSingle` | tools/migrate_claude_project.py:47 | non-empty text without line breaks is one line |
| `Text.SplitLinesBreak` | tools/migrate_claude_project.py:47 | a line ended by any line-break character is split off as the first line, and the lines after it are those of the rest; a `\r` counts alone unless a `\n` follows |
| `Text.SplitLinesCRLF` | tools/migrate_claude_project.py:47 | a line ended by `\r\n` is split off as the first line: the pair is one break |
| `Text.DecimalRoundTrip` | tools/migrate_claude_project.py:235 | the decimal text of a count reads back as that count |
| `Text.DecimalInjective` | tools/migrate_claude_project.py:87 | different counts print differently |
| `Order.StrLessIsStrictTotal` | tools/migrate_claude_project.py:247 | string comparison is a strict total order |
| `Order.PathLessIsStrictTotal` | tools/migrate_claude_project.py:245 | path comparison, part by part, is a strict total order |
| `Order.SortUnique` | tools/migrate_claude_project.py:245 | `sorted(set(xs))` is strictly increasing and holds exactly the elements of `xs` |
| `Order.SortedUnique` | tools/migrate_claude_project.py:245-247 | two strictly increasing lists with the same elements are equal, so the sorted listing is determined |
| `OrderedMap.IndexOf` | tools/migrate_claude_project.py:188 | a key's position is that of its only entry, or the key is absent |
| `OrderedMap.LookupHasKey` | tools/migrate_claude_project.py:188 | a lookup finds a value exactly when the key is present |
| `OrderedMap.PutOrder` | tools/migrate_claude_project.py:188 | assignment keeps every key in place and appends a new key at the end |
| `OrderedMap.PutLookup` | tools/migrate_claude_project.py:188 | after `m[k] = v`, `k` maps to `v` and every other key keeps its value |
| `OrderedMap.PutDistinct` | tools/migrate_claude_project.py:188 | assignment never duplicates a key |
| `OrderedMap.PutAllKeys` | tools/migrate_claude_project.py:184-188 | after a run of assignments a key is present exactly when it was before or some assignment named it |
| `OrderedMap.PutAllLastWins` | tools/migrate_claude_project.py:184-188 | after a run of assignments a key holds the value of the last assignment naming it |
| `OrderedMap.Keys` | tools/migrate_claude_project.py:247 | the key list of a dict, in order |
| `Slug.Slugify` | tools/migrate_claude_project.py:12-16 | the result is a non-empty `[a-z0-9]` run with single inner hyphens and none at either end; it keeps exactly the letters and digits of the lower-cased input, in order, and is `"unnamed"` when there are none |
| `Slug.ReplaceRuns` | tools/migrate_claude_project.py:14 | replacing each run of non-`[a-z0-9]` characters with one hyphen leaves nothing exactly for empty text, and starts with the first character when that is a letter or digit, else with a hyphen |
| `Slug.ReplaceRunsAlnum` | tools/migrate_claude_project.py:14 | a letter or digit is kept where it stands |
| `Slug.ReplaceRunsRun` | tools/migrate_claude_project.py:14 | a maximal run of other characters becomes exactly one hyphen, in its place |
| `Slug.ReplaceRunsJoinedPrefix` | tools/migrate_claude_project.py:14 | hyphen-joined text ending in a letter or digit passes through the replacement unchanged, whatever follows it |
| `Slug.ReplaceAround` | tools/migrate_claude_project.py:14 | between two slugs, a run without letters or digits is replaced by exactly one hyphen |
| `Slug.ReplaceRunsShape` | tools/migrate_claude_project.py:14 | the replacement keeps exactly the letters and digits, in order, and leaves no doubled hyphen |
| `Slug.SlugifyShape` | tools/migrate_claude_project.py:15 | collapsing and stripping hyphens keeps the letters and digits and gives a slug unless nothing is left |
| `Slug.StrippedJoined` | tools/migrate_claude_project.py:15 | stripping the hyphens from both ends of text without doubled hyphens gives a slug unless nothing is left |
| `Slug.SlugHasAlnum` | tools/migrate_claude_project.py:15-16 | a slug holds at least one letter or digit, so the fallback is not taken for it |
| `Slug.AlnumsLowerStrip` | tools/migrate_claude_project.py:13 | stripping before lower-casing removes no letter or digit |
| `Slug.FallbackIsSlug` | tools/migrate_claude_project.py:16 | `"unnamed"` is itself a slug |
| `Slug.SlugFixed` | tools/migrate_claude_project.py:12-16 | a slug is returned unchanged |
| `Slug.SlugifyIdempotent` | tools/migrate_claude_project.py:12-16 | `slugify(slugify(s)) == slugify(s)` |
| `Slug.SlugJoin` | tools/migrate_claude_project.py:15 | two slugs joined by one hyphen form a slug |
| `Slug.LowerAround` | tools/migrate_claude_project.py:13 | lower-casing text between two slugs changes only that text |
| `Slug.SlugifyReplaced` | tools/migrate_claude_project.py:12-16 | when the replacement step already gives a slug, `slugify` returns it |
| `Slug.SlugifyJoin` | tools/migrate_claude_project.py:12-16 | words that are slugs, separated by a run with no letter or digit even after lower-casing, are joined by exactly one hyphen: `slugify(a + m + b) == a + "-" + b` |
| `Frontmatter.SplitAtColonShape` | tools/migrate_claude_project.py:49-50 | a header line is cut at its first colon, with key and value trimmed and later colons kept in the value |
| `Frontmatter.CollectKeys` | tools/migrate_claude_project.py:47-50 | the header has a key exactly when some line gives a pair with that key |
| `Frontmatter.CollectLastWins` | tools/migrate_claude_project.py:47-50 | the header holds, for a key, the value of the last line naming it |
| `Frontmatter.HeaderKeys` | tools/migrate_claude_project.py:47-50 | a key is in the header exactly when some line with a colon names it; lines without a colon add nothing |
| `Frontmatter.HeaderLastWins` | tools/migrate_claude_project.py:47-50 | a later duplicate key overwrites an earlier one |
| `Frontmatter.ParseFrontmatter` | tools/migrate_claude_project.py:37-51 | the method gives the header and body of the parse |
| `Frontmatter.CollectHeader` | tools/migrate_claude_project.py:46-50 | the loop builds the header of the lines |
| `Frontmatter.DelimiterParts` | tools/migrate_claude_project.py:41 | with `---` at the start, the split gives an empty first part, and the rest splits at the next `---` |
| `Frontmatter.ParseWithoutHeader` | tools/migrate_claude_project.py:39-43 | without a leading `---`, or without a second `---` after it, the result is an empty header and the text unchanged |
| `Frontmatter.ParseWithHeader` | tools/migrate_claude_project.py:41-51 | otherwise the header comes from the trimmed text up to the next `---`, wherever it stands, and the body is the trimmed text after it |
| `Frontmatter.ParseExample` | tools/migrate_claude_project.py:37-51 | `"---\nname: Foo\n---\nBody text"` parses to `{"name": "Foo"}` and `"Body text"` |
| `Describe.FirstWhere` | tools/migrate_claude_project.py:54-55 | the search returns the first line that satisfies the test, or none |
| `Describe.FindFirst` | tools/migrate_claude_project.py:54-58 | each search loop returns the index of the first line that passes its test, or none |
| `Describe.InferDescription` | tools/migrate_claude_project.py:53-60 | the two search loops with early return compute the description |
| `Describe.HeadingWins` | tools/migrate_claude_project.py:54-56 | the first heading line decides, even after plain lines; it gives the raw line with leading `#` removed, then trimmed |
| `Describe.FirstLineUsed` | tools/migrate_claude_project.py:57-59 | without a heading, the first non-blank line decides: its trimmed form when it fits in 80 characters, else its first 80 characters and the 3-character suffix; so at most 83 characters and never empty |
| `Describe.FallbackOnlyWhenBlank` | tools/migrate_claude_project.py:53-60 | the fallback is returned when every line is blank, and has no effect otherwise |
| `Describe.HeadingLine` | tools/migrate_claude_project.py:55-56 | a line `# <title>` is a heading and gives back the title |
| `Describe.HeadingFirst` | tools/migrate_claude_project.py:54-56 | text that opens with `# <title>` and a newline is described by the title |
| `Describe.HeadingExample` | tools/migrate_claude_project.py:53-56 | `"# Helper\nDoes things."` is described as `"Helper"` |
| `Describe.IndentedHeadingExample` | tools/migrate_claude_project.py:55-56 | an indented `"  # X"` is described as `"# X"` |
| `Json.Contains` | tools/migrate_claude_project.py:75 | `key in value` raises exactly on a number, boolean or null, and on an object asks whether the key is present |
| `Json.Index` | tools/migrate_claude_project.py:75 | indexing with a string succeeds exactly on an object |
| `Mcp.Entries` | tools/migrate_claude_project.py:76-77 | one entry per member of `servers`, in member order, tagged with the file |
| `Mcp.AddFile` | tools/migrate_claude_project.py:71-79 | the inner loop appends one file's entries, in member order, or raises when that file raises |
| `Mcp.ExtractMcpConfig` | tools/migrate_claude_project.py:62-80 | the nested appending loops produce the extraction, or raise when some file raises |
| `Mcp.ExtractCrashed` | tools/migrate_claude_project.py:73-79 | once a file raises, the whole extraction raises |
| `Mcp.ExtractAppend` | tools/migrate_claude_project.py:70-72 | files are visited once each, in order: the entries of two lists of files are those of the first followed by those of the second |
| `Mcp.SkippedFile` | tools/migrate_claude_project.py:71-79 | a missing or undecodable file, or one without an `mcp`/`servers` path, contributes nothing |
| `Mcp.EntrySources` | tools/migrate_claude_project.py:77 | every entry names, as its source, one of the files |
| `Mcp.ObjectDocument` | tools/migrate_claude_project.py:75-77 | for an object document a missing `mcp` or `servers` contributes nothing; a `servers` object contributes its members; any other `servers` raises |
| `Mcp.ExtractExample` | tools/migrate_claude_project.py:62-80 | `{"mcp": {"servers": {"x": {...}}}}` gives exactly one entry, named `x` |
| `OutputDir.NumberedInjective` | tools/migrate_claude_project.py:87 | different counters give different names `target_i` |
| `OutputDir.NumberedDiffers` | tools/migrate_claude_project.py:87 | a numbered name is never the bare target |
| `OutputDir.TriedNext` | tools/migrate_claude_project.py:86-88 | each round of the loop tries a name it has not tried before, so the loop ends |
| `OutputDir.ChooseOutputDir` | tools/migrate_claude_project.py:83-89 | the chosen name is unused; it is the target when that is unused, else `target_i` for the least `i >= 1` that is unused |
| `OutputDir.ChoiceUnique` | tools/migrate_claude_project.py:83-89 | only one name meets that description |
| `OutputDir.RerunsNumbered` | tools/migrate_claude_project.py:83-89 | successive runs write to `target`, `target_1`, `target_2` |
| `Templates.MapSeqAt` | tools/migrate_claude_project.py:143 | a list comprehension has at position i the image of the i-th element |
| `Templates.AgentFields` | tools/migrate_claude_project.py:122-127 | an agent is named by its header, else its file stem; it is described by its header, else its body, else its name; its slug is a slug of its name |
| `Templates.OpenCodeCommandFields` | tools/migrate_claude_project.py:171-174 | an opencode command file opens with the header's description, else the inferred one with the stem as fallback, and the header's agent, else `plan` |
| `Templates.CodexCommandFields` | tools/migrate_claude_project.py:214-216 | a codex command file opens with a title naming the stem and the description chosen the same way |
| `Templates.BuildMcpLines` | tools/migrate_claude_project.py:131-141 | the appends to `mcp_md` build the lines of `MCP.md` |
| `Templates.SectionsStep` | tools/migrate_claude_project.py:134-139 | each server appends its own section after those of the servers before it |
| `Templates.SectionsShape` | tools/migrate_claude_project.py:134-139 | each server adds a fixed number of lines, in server order: its name heading, then its source |
| `Templates.McpWithoutServers` | tools/migrate_claude_project.py:140-142 | with no servers, `MCP.md` is the title and the "No MCP servers" line, recorded with no sources |
| `Templates.BuildMcpBlock` | tools/migrate_claude_project.py:183-188 | the loop builds the `mcp` block |
| `Templates.McpBlockLastWins` | tools/migrate_claude_project.py:184-188 | a name maps to the config of its last entry with a truthy name and config |
| `Templates.McpBlockAbsent` | tools/migrate_claude_project.py:184-188 | a name without such an entry, for example one whose config is `{}` or `null`, is not in the block |
| `Templates.ConfigKeys` | tools/migrate_claude_project.py:178-190 | `$schema` and `instructions` are always present; `mcp` is present exactly when the block is non-empty, and is then the block |
| `Templates.PromptPaths` | tools/migrate_claude_project.py:148 | each opencode prompt goes to `.opencode/prompts/<slug>.txt` |
| `Templates.AgentPaths` | tools/migrate_claude_project.py:198 | each codex agent goes to `agents/<slug>.md` |
| `Templates.SkillPaths` | tools/migrate_claude_project.py:161-162 | each skill goes to the target's skill directory under the slug of its stem |
| `Templates.CommandPaths` | tools/migrate_claude_project.py:170-173 | each command goes to the target's command directory under the slug of its stem |
| `Templates.AgentFileLines` | tools/migrate_claude_project.py:199 | the codex agent file contains `Name: <name>` and `Description: <desc>` |
| `Migration.GeneratedSnoc` | tools/migrate_claude_project.py:106 | recording one more write assigns its path to its sources |
| `Migration.GeneratedKeys` | tools/migrate_claude_project.py:150 | a path is in `generated` exactly when some write produced it |
| `Migration.GeneratedLastWins` | tools/migrate_claude_project.py:150 | a path is recorded with the sources of the last write to it |
| `Migration.GeneratedDistinct` | tools/migrate_claude_project.py:92 | `generated` never lists a path twice |
| `Migration.RecordedLast` | tools/migrate_claude_project.py:150 | writes to other paths after a write leave its record unchanged |
| `Migration.Record` | tools/migrate_claude_project.py:105-106 | writing a batch appends it to the outputs, and `generated` stays the record of all outputs |
| `Migration.AgentOfParsed` | tools/migrate_claude_project.py:124-127 | the agent record takes the parsed header and body |
| `Migration.ParseAgent` | tools/migrate_claude_project.py:123-127 | one iteration of the agent loop computes that agent's record |
| `Migration.AgentsOfAt` | tools/migrate_claude_project.py:121-127 | the i-th agent record is that of the i-th agent file |
| `Migration.ParseAgents` | tools/migrate_claude_project.py:121-127 | the agent loop computes one record per file, in order |
| `Migration.Bullets` | tools/migrate_claude_project.py:245 | each listed item becomes a `- ` bullet, in order |
| `Migration.ManifestShape` | tools/migrate_claude_project.py:92 | the manifest names the target and lists the generated paths in recording order, each with its `from` list |
| `Migration.BuildConfig` | tools/migrate_claude_project.py:177-190 | the block is built only when there are servers and attached only when non-empty |
| `Migration.WriteTarget` | tools/migrate_claude_project.py:129-230 | the target's files are written in the source's order, and each is recorded |
| `Migration.WriteRules` | tools/migrate_claude_project.py:98-106 | `CLAUDE.md`, when found, is appended to the source files and written as `AGENTS.md`, and `generated` records exactly that write |
| `Migration.BuildNotes` | tools/migrate_claude_project.py:233-239 | the appends build the notes |
| `Migration.Convert` | tools/migrate_claude_project.py:82-257 | the run writes into the chosen directory and produces the outputs, `generated`, report and manifest, or aborts |
| `Migration.RunWrites` | tools/migrate_claude_project.py:101-230 | a completed run writes `AGENTS.md` when there is a `CLAUDE.md`, then the target's files, and `generated` is the record of exactly those writes |
| `Migration.McpLast` | tools/migrate_claude_project.py:143 | no write after `MCP.md` has that path, so its record is the server sources |
| `Migration.McpRecorded` | tools/migrate_claude_project.py:230 | a completed run always records `MCP.md`, with one source per server entry, duplicates kept |
| `Migration.ConfigLast` | tools/migrate_claude_project.py:193 | `opencode.jsonc` is the last file written, so its record has no sources |
| `Migration.ConfigRecorded` | tools/migrate_claude_project.py:193 | an opencode run records `opencode.jsonc` with no sources |
| `Migration.TargetAvoidsRules` | tools/migrate_claude_project.py:106 | no target file is written to `AGENTS.md` |
| `Migration.RunAborts` | tools/migrate_claude_project.py:109 | a run aborts exactly when the extraction raises, and then only `AGENTS.md` has been written |
| `Migration.RulesFirst` | tools/migrate_claude_project.py:102-106 | the `AGENTS.md` record keeps the `CLAUDE.md` source when no later write has that path |
| `Migration.RulesRecorded` | tools/migrate_claude_project.py:102-106 | a completed run with a `CLAUDE.md` records `AGENTS.md` from that file |
| `Migration.OtherPromptsAvoid` | tools/migrate_claude_project.py:147-150 | prompts of later agents with other slugs are written elsewhere |
| `Migration.OtherAgentFilesAvoid` | tools/migrate_claude_project.py:197-200 | codex agent files of later agents with other slugs are written elsewhere |
| `Migration.PromptKeyAvoidsLater` | tools/migrate_claude_project.py:157-193 | the skills, commands and configuration written after the prompts never use a prompt path |
| `Migration.PromptLastWins` | tools/migrate_claude_project.py:147-150 | an opencode prompt path is recorded from the last agent with that slug |
| `Migration.AgentFileLastWins` | tools/migrate_claude_project.py:197-200 | a codex agent path is recorded from the last agent with that slug |
| `Migration.SameSlugLastWins` | tools/migrate_claude_project.py:147-150 | for both targets, two agents with the same slug share one manifest key, which holds the later agent's file |
| `Migration.SlugsAt` | tools/migrate_claude_project.py:161 | the i-th name slug is `slugify` of the i-th file's stem |
| `Migration.LaterNamesAvoid` | tools/migrate_claude_project.py:161-163 | files written under one directory as `<name>.md` after the i-th avoid its path unless they have its name |
| `Migration.SkillsNamed` | tools/migrate_claude_project.py:157-164 | each skill file is named after its skill's slug and records that skill (codex: lines 202-208) |
| `Migration.CommandsNamed` | tools/migrate_claude_project.py:166-175 | each command file is named after its command's slug and records that command (codex: lines 210-217) |
| `Migration.CommandsAvoidSkill` | tools/migrate_claude_project.py:166-175 | no command file is written to a skill path |
| `Migration.LastAvoids` | tools/migrate_claude_project.py:177-193 | neither `opencode.jsonc` nor the codex `MCP.md` is written to a skill or command path |
| `Migration.SkillLastInBlock` | tools/migrate_claude_project.py:157-164 | within the skill files, a skill is recorded from its own file when no later skill has its slug and nothing after the skills uses its path |
| `Migration.CommandLastInBlock` | tools/migrate_claude_project.py:166-175 | the same for the command files |
| `Migration.SkillLastWins` | tools/migrate_claude_project.py:157-164 | for both targets, a skill path is recorded from the last skill with that slug (codex: lines 202-208) |
| `Migration.CommandLastWins` | tools/migrate_claude_project.py:166-175 | for both targets, a command path is recorded from the last command with that slug (codex: lines 210-217) |
| `Migration.SameSkillSlugLastWins` | tools/migrate_claude_project.py:202-208 | in a completed run, skills with the same slug share one manifest key, which holds the later skill's file |
| `Migration.SameCommandSlugLastWins` | tools/migrate_claude_project.py:210-217 | in a completed run, commands with the same slug share one manifest key, which holds the later command's file |
| `Migration.ReportShape` | tools/migrate_claude_project.py:241-253 | the report lists the source files as `sorted(set(...))` and the manifest keys sorted, each as the one strictly increasing list with the right elements |
| `Migration.NotesMention` | tools/migrate_claude_project.py:233-239 | the agent note is present exactly when some agent was parsed, and the server-count note exactly when some server was found |
| `Migration.RunReport` | tools/migrate_claude_project.py:241-254 | the report of a completed run lists the target, the sorted distinct source files, every generated path sorted, and the notes for the servers found and the agents parsed |

## Left out

- Filesystem effects are inputs of the model or are not modelled:
  - `read_text`, `write_text` and `mkdir`;
  - `exists`, `rglob`/`glob` and the order in which they enumerate files;
  - `find_claude_md` and `ROOT` resolution (tools/migrate_claude_project.py:10-35).
- The found files, their text and the existing directory names are given, and the written files are returned as values.
- The decoding with `errors="replace"` is not modelled: text is given as characters.
- `json.loads` and `json.dumps(indent=2)` are foreign library calls:
  - a settings file is given as missing, undecodable, or decoded to a JSON value;
  - the dumped text is an opaque parameter.
  - A JSON number is a real: `NaN` and `Infinity` are not representable, and `1` and `1.0` are the same value.
  - A JSON object is an ordered list of members with distinct keys: a document that repeats a key is given as the object `json.loads` builds, where the last value wins in the place of the first.
- The text written to `manifest.json` (the dumped manifest and a newline) and to `MIGRATION_REPORT.md` is not among the outputs. The model returns the manifest value and the report text separately.
  - Like the source, the model does not record those two files in `generated`.
- `argparse`, `main` and `print` (tools/migrate_claude_project.py:259-264) are not modelled.
- The `agent_configs` dict (tools/migrate_claude_project.py:146-155) is never read, so it is not modelled.
- Text operations have these limits:
  - `lower()` is modelled for ASCII letters only;
  - `strip()` uses Python's full whitespace set;
  - `splitlines()` uses its full line-break set, with `\r\n` as one break.
- The closing `---` of a header may be any later `---` substring, not only a line of its own. This follows the code's `split("---", 2)`.
- The suffix of a shortened description is the three characters Python reads from the bytes in the file (U+00E2 U+20AC U+00A6). An ellipsis is evidently what was meant, but no single-character ellipsis is assumed.
- `OpenCodeCommandFields` and `CodexCommandFields` state what a command file opens with, up to its body. The file then has the parsed body and a newline.
