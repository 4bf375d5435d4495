# opendoc keybindings and release version arithmetic, in Dafny

This project models two small parts of the opendoc repository and proves properties about them.

**The keybinding engine.** This is `Keybind` in `packages/opendoc/src/util/keybind.ts`, modelled in `keybind.dfy`. It has four pieces:
- the `Info` chord record, whose `super` field is optional;
- `match`, which compares chords and reads an absent `super` as false;
- `toString`, which renders a chord;
- `parse`, which reads a configuration string into alternative chords.

`toString` and `parse` build their results step by step in the source. They are therefore modelled as methods (`Keybind.ToString`, `Keybind.Parse`, `Keybind.ParseParts`). Each is proved equal to a declarative function:
- `Display` for `toString`;
- `ParseSpec` for `parse`;
- `ChordOf` for the token loop.

The properties are proved about those functions.

**The version arithmetic of the release script.** This is in `packages/opendoc/script/release.ts`, modelled in `release.dfy`. It covers:
- `calculateNewVersion`;
- how `getVersionBump` classifies the command-line version argument;
- how `main` prefers an explicit version over a bump.

**Shared string operations.** `strings.dfy` models the JavaScript string operations both parts use:
- `split` on one character;
- `join`;
- ASCII `toLowerCase`;
- a global literal `replace`.

`wrappers.dfy` holds `Option`.

## Model

| member | source | states |
|---|---|---|
| Keybind.Match | packages/opendoc/src/util/keybind.ts:13-17 | An undefined chord never matches. Otherwise `match` holds exactly when name, ctrl, meta, shift and leader are equal and `super ?? false` is equal. |
| Keybind.MatchIsEquivalence | packages/opendoc/src/util/keybind.ts:13-17 | On defined chords `match` is reflexive, symmetric and transitive. |
| Keybind.MatchAbsentSuper | packages/opendoc/src/util/keybind.ts:15-16 | An absent `super` and `super = false` give the same `match` result, on either side. |
| Keybind.ToString | packages/opendoc/src/util/keybind.ts:20-40 | The push-and-join method returns exactly `Display(info)`. |
| Keybind.DisplayEmpty | packages/opendoc/src/util/keybind.ts:20-40 | `toString` of a defined chord is `""` exactly when no flag is set and the name is empty. |
| Keybind.DisplayLeader | packages/opendoc/src/util/keybind.ts:35-37 | A leader chord with nothing else set renders as `<leader>`. Otherwise it renders as `<leader> ` followed by the rendering of the same chord without the leader. |
| Keybind.DisplayRespectsMatch | packages/opendoc/src/util/keybind.ts:13-40 | Chords that `match` cannot tell apart render to the same string. |
| Keybind.ParseParts | packages/opendoc/src/util/keybind.ts:49-85 | The `switch` loop over the tokens returns `ChordOf(parts)`. In that chord each flag is set exactly when one of its own tokens occurs, `super` is absent or true, and the name comes from the last non-modifier token. |
| Keybind.ChordOfSnoc | packages/opendoc/src/util/keybind.ts:57-83 | Appending one token changes the chord as one pass of the `switch` does, case by case. |
| Keybind.Parse | packages/opendoc/src/util/keybind.ts:42-87 | The method returns `ParseSpec(key)`. `"none"` gives `[]`. Any other key gives one chord per `,` plus one. |
| Keybind.ParsePieces | packages/opendoc/src/util/keybind.ts:43-45 | Apart from `"none"`, the alternatives are the comma-free pieces of the key, in order. Joining the pieces with `,` gives the key back, and chord k is the parse of piece k. |
| Keybind.EmptyAlternative | packages/opendoc/src/util/keybind.ts:49-55 | An empty alternative parses to the default chord. `""` gives one default chord and `","` gives two. |
| Keybind.ParseNeverSuperFalse | packages/opendoc/src/util/keybind.ts:49-83 | No parsed chord has `super = false`. |
| Keybind.MetaAliases | packages/opendoc/src/util/keybind.ts:62-66 | `alt`, `meta` and `option` are interchangeable anywhere in a token list, and each sets `meta`. |
| Keybind.LastKeyTokenWins | packages/opendoc/src/util/keybind.ts:76-81 | The name comes from the last non-modifier token, whatever modifiers follow it, and `esc` gives `escape`. |
| Keybind.ParsedNameIsLower | packages/opendoc/src/util/keybind.ts:48 | Every parsed name is free of ASCII upper-case letters. |
| Keybind.LeaderPrefix | packages/opendoc/src/util/keybind.ts:47-48 | `<leader>` followed by a plain lower-case key gives a leader chord on that key and nothing else. |
| Keybind.LeaderSyntax | packages/opendoc/src/util/keybind.ts:47-48 | `<leader>g` gives `leader = true, name = "g"`. `<LEADER>g` is not rewritten and gives `name = "<leader>g"` with no leader. |
| Keybind.RoundTrip | packages/opendoc/src/util/keybind.ts:20-87 | For a non-leader chord whose name is round-trippable, `parse(toString(i))` is one chord that matches `i`. A round-trippable name is lower-case, has no `+`, `,` or `<leader>`, and is not `delete`, `esc`, `none` or a modifier word. |
| Keybind.KeyAliasesDoNotRoundTrip | packages/opendoc/src/util/keybind.ts:29-77 | For a non-leader chord, `delete` comes back as `del` and `esc` as `escape`, so neither matches. |
| Keybind.ParseLeaderDisplayed | packages/opendoc/src/util/keybind.ts:36-48 | A displayed leader chord with more than the leader, whose name is lower-case and has no `+`, `,` or `<leader>`, parses to one chord. Its tokens are `leader`, then the first display token with a leading space, then the rest. |
| Keybind.LeaderAloneRoundTrips | packages/opendoc/src/util/keybind.ts:36-48 | A leader chord with nothing else set renders as `<leader>`, which parses to the tokens `leader` and `""`: one leader chord with an empty name, which matches. |
| Keybind.LeaderRoundTripFails | packages/opendoc/src/util/keybind.ts:36-48 | For a leader chord with a key or a modifier, `parse(toString(i))` is one leader chord that does not match `i`. The space after `<leader>` spoils the next token. |
| Release.CalculateNewVersion | packages/opendoc/script/release.ts:93-98 | The result is three decimal numerals without leading zeros, joined by dots. `major` gives `(M+1).0.0`, `minor` gives `M.(m+1).0`, and any other bump gives `M.m.(p+1)`, where missing or non-numeric components count as 0. The result is strictly newer than the current version. |
| Release.CalculateNewVersionAsWritten | packages/opendoc/script/release.ts:93-98 | The code as written: destructuring leaves a missing component `undefined` (see Findings). |
| Release.AsWrittenAgreesOnFullVersions | packages/opendoc/script/release.ts:93-98 | On a version string with at least two dots, the code as written and the corrected function agree for every bump. |
| Release.AsWrittenMissingComponents | packages/opendoc/script/release.ts:94-97 | `""` with `patch` gives `0.undefined.NaN` and `"1"` with `minor` gives `1.NaN.0` as written. The corrected results are `0.0.1` and `1.1.0`. |
| Release.PrereleaseComponentCountsAsZero | packages/opendoc/script/release.ts:94-97 | `1.2.3-beta` denotes 1.2.0, so its patch bump is `1.2.1`. |
| Release.SemverPrefixIff | packages/opendoc/script/release.ts:22 | The prefix test accepts exactly the strings that consist of three non-empty digit runs joined by dots, followed by anything. |
| Release.FindVersionArg | packages/opendoc/script/release.ts:17 | The version argument is absent exactly when every argument starts with `--`. Otherwise it is the first argument that does not start with `--`. |
| Release.ClassifyVersionArg | packages/opendoc/script/release.ts:20-32 | Each case is an if-and-only-if. An absent or empty argument leads to the prompt. A semver-prefixed one is the explicit version, kept verbatim. `major`, `minor` and `patch` are bumps. Anything else is invalid. |
| Release.ExplicitVersionArgument | packages/opendoc/script/release.ts:22-23 | Any string of the form `digits.digits.digits` and a tail is taken verbatim as the explicit version. |
| Release.ExplicitVersionKeepsSuffix | packages/opendoc/script/release.ts:22-23 | `1.2.3-beta` is kept whole as the explicit version. |
| Release.InvalidVersionArguments | packages/opendoc/script/release.ts:22-31 | `v1.2.3` and `Major` are invalid. |
| Release.SelectNewVersion | packages/opendoc/script/release.ts:114-122 | A truthy explicit version is used unchanged. Otherwise a truthy bump gives the corrected `calculateNewVersion` of the current version, which is canonical and strictly newer. Otherwise the result is "No version specified". |
| Release.ExplicitTakesPrecedence | packages/opendoc/script/release.ts:115-118 | With an explicit version, the bump and the current version make no difference. |
| Release.ArgumentDecidesVersion | packages/opendoc/script/release.ts:114-118 | An accepted argument always yields a new version: the argument itself when it is semver-prefixed, the bumped current version otherwise. |
| Strings.JoinSplit | packages/opendoc/src/util/keybind.ts:45 | `split` then `join` on the same one-character separator gives the string back. |
| Strings.SplitJoin | packages/opendoc/src/util/keybind.ts:33-48 | Splitting the join of a non-empty list of separator-free parts gives the parts back. |
| Strings.LowerIsLower | packages/opendoc/src/util/keybind.ts:48 | Lowercasing yields a lower-case string and leaves exactly the lower-case strings unchanged. |

## Left out

- I/O in `release.ts`. Shelling out to `gh`, `npm` and `git`, the registry `fetch` (lines 82-91), the prompts (lines 34-49 and 127-136), environment variables, archive checks and release notes are not modelled. The prompt branch of `getVersionBump` appears only as the `Prompt` outcome of `Release.ClassifyVersionArg`. `process.exit` appears as the `Invalid` and `NoVersion` outcomes.
- Other files. `packages/opendoc/script/publish.ts`, `packages/sdk/js/script/build.ts` and `packages/opendoc/src/cli/cmd/serve.ts` are not part of this model. They are shell commands, code generation and server start-up.
- `isDeepEqual` is not modelled as a generic deep equality. `Keybind.Match` compares the six fields of `Info` directly, which is what `isDeepEqual` does on those records.
- `Release.ComponentValue` approximates `Number(x) || 0` on one component. It models plain decimal digit strings, which give their value, and everything else, including the empty string, which gives 0. JavaScript also reads surrounding whitespace, a sign, exponents, `0x`/`0b`/`0o` prefixes and `Infinity`, and loses precision on huge values. None of that is modelled.
- `Release.ShowNat` prints any natural number as its decimal digits. JavaScript switches to exponent notation from 1e21, which is not modelled.
- `toLowerCase` is modelled on ASCII letters only (`Strings.Lower`). Unicode case mapping is left out.
- The regular expressions are not given to a regex engine. `/<leader>/g` is a literal left-to-right replacement (`Strings.ReplaceAll`). `/^\d+\.\d+\.\d+/` is the prefix check `Release.HasSemverPrefix` over ASCII digits, which is what `\d` matches.
- `Keybind.RoundTrip` is stated for names that are lower-case, contain no `+`, `,` or `<leader>`, and are not `delete`, `esc`, `none` or a modifier word. The condition on `<leader>` is needed because `parse` rewrites that text inside a name too, so such a name does not come back.
- `Release.SelectNewVersion` applies the corrected `Release.CalculateNewVersion`, not the code as written at line 118. For a current version with fewer than three components, `main` as written prints `undefined` or `NaN` (see Findings), which this member does not reproduce.
- `Keybind.LeaderRoundTripFails` is stated only for chords whose name is lower-case and free of `+`, `,` and `<leader>`, and is not a modifier word. The failure for other names is not stated.

## Findings

| source | as written | input that shows it | evidently intended | confidence | as-written member | corrected member |
|---|---|---|---|---|---|---|
| packages/opendoc/script/release.ts:94-97 | The destructuring `const [major, minor, patch] = ...` leaves positions beyond the split's length `undefined`. `undefined + 1` is `NaN`, and both then print inside the template literal. | Current version `""` with bump `patch` gives `"0.undefined.NaN"`. Current version `"1"` with bump `minor` gives `"1.NaN.0"`. | Missing components count as 0, so these give `"0.0.1"` and `"1.1.0"`. The `|| 0` shows that intent, but it only applies to components that exist. | not executed | Release.AsWrittenMissingComponents | Release.CalculateNewVersion |

`Release.CalculateNewVersionAsWritten` models the code as written. `Release.AsWrittenMissingComponents` exhibits the two inputs above. `Release.AsWrittenAgreesOnFullVersions` shows that the two versions agree whenever the string has at least three components.

The rest of the model uses the corrected `Release.CalculateNewVersion`, through `Release.SelectNewVersion`. The registry fetch falls back to `"0.0.0"` (line 85), which has three components, so the discrepancy shows only for a registry answer with fewer than three.
