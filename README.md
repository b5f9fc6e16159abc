# auto-folder-colors: a Dafny model of the decision core

auto-folder-colors is a VS Code extension. It gives each workspace folder a colour and paints the editor chrome in it. A folder is picked by finding its name, bracketed by path separators, in the path of the active file. Underneath the UI sits a small decision core, and this project models it and proves what it promises:

- **Shade arithmetic** (`colormath.dfy`, module `ColorMath`). `adjustColor` splits a `#rrggbb` colour into three 8-bit channels, moves each one by an amount derived from a percentage, clamps it to [0, 255] and re-encodes the result. The model also covers:
  - the custom-colour validator `/^#[0-9A-Fa-f]{6}$/`;
  - the `padStart` variant of the standalone test.

  The shifts and masks on the 24-bit value are division and remainder by powers of 256. The re-encoding is the `0x1000000 + …` offset followed by `.toString(16).slice(1)`.
- **Test cases of the shade arithmetic** (`colormath_samples.dfy`, module `ColorMathSamples`). These are the literal and boundary assertions of both test files. Black and white are stated for every percentage.
- **Path resolution** (`pathresolver.dfy`, module `PathResolver`). `getColorForPath` is a first-match search over the folder table in iteration order, looking for `/name/` or `\name\` in the path. The model also has the `for … break` scan loop of the memoised copy.
- **The memo cache** (`resolutioncache.dfy`, module `ResolutionCache`). This is the bounded `Map` of the standalone test, as a class: a key order plus a map, holding at most 100 entries.
  - Every stored value, `None` included, is the uncached resolution of its key.
  - A hit changes nothing.
  - A miss on a full cache drops the oldest inserted key, then appends the new one. Hits never move keys, so the policy is FIFO, even though the test calls it LRU.
  - The empty path bypasses the cache.
- **Tab aggregation and the selection guard** (`extension.dfy`, module `Extension`).
  - `scanAllOpenTabs` clears `openTabsInfo` and rebuilds it in two nested loops. The result is specified by a fold, `Tally`, over the folders the tabs resolve to. Lemmas state what it holds: exactly the resolved names, a count per name equal to the number of such tabs, the table colour, and the palette icon of that colour.
  - `changeWorkspaceColor`, `updateColor` and the active-editor handler act on the two fields `currentColor` and `currentFolderName`. A folder is re-applied unless both its name and its colour equal those fields. The editor-change handler resets both fields first, so a resolved folder is always applied there.

Modelling choices:
- `null` is `Option.None`.
- The folder table is a sequence of `FolderInfo(name, color)` in iteration order. It is supplied by the caller in place of `getConfiguration`.
- A tab is an `Option<string>`: its `fsPath` when `tab.input?.uri` is present, and `None` otherwise.
- Tab groups are a sequence of such sequences.
- The active editor is an `Option<string>` holding its path.
- `Math.round(2.55 * percent)` is integer round-half-up of 255·percent/100, i.e. `(255 * percent + 50) / 100`. This gives the amounts the test assertions expect: 38 for 15 and 26 for 10.
- test/unit/logic.test.js:3-13 is identical, up to whitespace, to `adjustColor` at extension.js:108-118. Its assertions are therefore stated about `ColorMath.AdjustColor`.

## Model

| member | source | states |
|---|---|---|
| `ColorMath.MatchHexRun` | extension.js:86 | The regex tail `[0-9A-Fa-f]{n}$` succeeds exactly when the rest of the input is n hex digits and nothing more. |
| `ColorMath.IsHexColor` | extension.js:86 | The validator accepts a string exactly when it has length 7, starts with `#`, and its other six characters are in [0-9A-Fa-f]. |
| `ColorMath.ParseHex` | extension.js:109 | `parseInt(…, 16)` of n hex digits is below 16^n. |
| `ColorMath.ToHexString` | extension.js:117 | `n.toString(16)` has at least one digit. Its value with the offset is pinned by ToHexStringOffset and OffsetEncoding. |
| `ColorMath.Channels` | extension.js:113-115 | Each channel of a valid colour lies in 0..255. |
| `ColorMath.Amount` | extension.js:110 | The amount is the integer nearest to 2.55·percent, a half rounded up. CallerAmounts gives the two caller values. |
| `ColorMath.AdjustChannel` | extension.js:111 | The result is in [0, 255]. Lightening never decreases a channel and adds exactly the amount unless it clamps at 255. Darkening never increases it and subtracts exactly the amount unless it clamps at 0. |
| `ColorMath.PadStart` | test/standalone_test.js:24 | `padStart(n)` returns a string of length max(\|s\|, n). |
| `ColorMath.Part` | test/standalone_test.js:24 | The `part` closure. Its contract is carried by PartIsTwoDigits: the two-digit zero-padded encoding of every channel value. |
| `ColorMath.EncodeRgb` | extension.js:117 | The re-encoding of three channels. Its contract is carried by EncodeRgbDigits (`#` and three two-digit channels) and EncodeRgbRoundTrip (a valid lowercase colour that reads back to the same channels). |
| `ColorMath.AdjustColor` | extension.js:108-118 | `adjustColor`, and its copy at test/unit/logic.test.js:3-13. Its contract is carried by AdjustColorChannels, LightenChannels, DarkenChannels and AdjustColorIs: the unique lowercase colour whose channels are the input channels clamped after adding or subtracting Amount(percent). |
| `ColorMath.AdjustColorPadded` | test/standalone_test.js:14-26 | The standalone `adjustColor`. Its contract is carried by PaddedAgreesWithOffset: it returns the same string as AdjustColor on every valid colour, percentage and direction. |
| `ColorMath.ToHexStringOffset` | extension.js:117 | `(16^w + n).toString(16)` is `1` followed by the w-digit zero-padded encoding of n, for n < 16^w. |
| `ColorMath.ParseFixedHex` | extension.js:109 | Parsing the w-digit encoding of n < 16^w gives back n. |
| `ColorMath.FixedHexOfParse` | extension.js:109 | Re-encoding the value of a digit string at its own width gives the string lower-cased. |
| `ColorMath.ParseHexConcat` | extension.js:109 | The value of a concatenation is the value of the left part shifted by the right part's width, plus the right part's value. |
| `ColorMath.OffsetEncoding` | extension.js:117 | The offset-and-slice trick writes any value below 2^24 as exactly six zero-padded lowercase digits. |
| `ColorMath.EncodeRgbDigits` | extension.js:117 | The encoding is `#` followed by each channel as two zero-padded digits. |
| `ColorMath.EncodeRgbRoundTrip` | extension.js:117 | Encoding three channels gives a valid, lowercase colour whose channels read back as those three. |
| `ColorMath.ShiftsReadChannels` | extension.js:113-115 | `num >> 16`, `(num >> 8) & 0xFF` and `num & 0xFF` are the values of the first, second and third digit pairs. |
| `ColorMath.EncodeChannelsIsLower` | extension.js:109-117 | Decoding a valid colour into channels and re-encoding them gives the colour lower-cased. |
| `ColorMath.AdjustColorChannels` | extension.js:108-118 | The output is a valid colour of 6 lowercase digits. Each output channel is the clamped adjustment of the same input channel by one shared amount. |
| `ColorMath.LightenChannels` | extension.js:111-115 | When lightening, each output channel is min(255, c + amt), so it lies between the input channel and 255. |
| `ColorMath.DarkenChannels` | extension.js:111-115 | When darkening, each output channel is max(0, c - amt), so it lies between 0 and the input channel. |
| `ColorMath.CanonicalDigits` | extension.js:117 | A lowercase colour is spelled by the two-digit encodings of its channels. |
| `ColorMath.ChannelsDetermineCanonical` | extension.js:117 | Two lowercase colours with equal channels are the same string. |
| `ColorMath.AdjustColorIs` | extension.js:108-118 | The output is the one lowercase colour whose channels are the adjusted input channels. |
| `ColorMath.AdjustByZeroIsLower` | extension.js:110-117 | With percent 0 the output is the input lower-cased. |
| `ColorMath.PartIsTwoDigits` | test/standalone_test.js:24 | `part(v)` is the two-digit zero-padded encoding of v, for every channel value. |
| `ColorMath.PaddedAgreesWithOffset` | test/standalone_test.js:14-26 | The `padStart` variant returns the same string as the offset encoding on every valid colour and percentage. |
| `ColorMathSamples.DarkenBlack` | test/unit/logic.test.js:27 | Darkening `#000000` by any percentage gives `#000000`. |
| `ColorMathSamples.LightenWhite` | test/unit/logic.test.js:28 | Lightening `#ffffff` by any percentage gives `#ffffff`. |
| `ColorMathSamples.CallerAmounts` | extension.js:152-153 | The amounts for the two percentages the callers use are 38 (15) and 26 (10). |
| `ColorMathSamples.LightenSample` | test/unit/logic.test.js:16-19 | Lightening `#007acc` by 15 gives `#26a0f2`. |
| `ColorMathSamples.DarkenSample` | test/unit/logic.test.js:21-24 | Darkening `#007acc` by 10 gives `#0060b2`. |
| `ColorMathSamples.PaddedSamples` | test/standalone_test.js:28-35 | The `padStart` variant gives `#26a0f2` (not the original) and `#0060b2` for the same cases. |
| `PathResolver.Includes` | extension.js:100 | `String.prototype.includes`. Its contract is carried by IncludesIffOccurs: true exactly when the needle occurs at some index. |
| `PathResolver.IncludesIffOccurs` | extension.js:100 | `includes` holds exactly when the needle occurs at some index of the path. |
| `PathResolver.MissingCharExcludes` | extension.js:100 | A needle with a character the path lacks is not included. |
| `PathResolver.InFolder` | extension.js:100 | The match test. Its contract is carried by InFolderIffBracketed: the name occurs with the same separator directly before and after it. |
| `PathResolver.InFolderIffBracketed` | extension.js:100 | A name matches exactly when it occurs with the same separator directly before and after it. A bare name, or one between `/` and `\`, does not match. |
| `PathResolver.FirstMatch` | extension.js:99-105 | The result is none exactly when no entry matches. Otherwise it is the entry (name and colour) at the first matching index, with no earlier entry matching. |
| `PathResolver.Resolve` | extension.js:94-106 | The result is null exactly when the path is empty or no entry matches. Otherwise it is `{name, color}` of the first matching entry in table order. |
| `PathResolver.ScanFolders` | test/standalone_test.js:54-60 | The `for … break` loop computes the first-match resolution. |
| `PathResolver.ResolveAt` | extension.js:99-102 | If entry i matches and no earlier entry does, entry i is the result. |
| `PathResolver.NotInFolderIfCharMissing` | extension.js:100 | A name with a character the path lacks does not match. |
| `PathResolver.InFolderOfConcat` | extension.js:100 | A name written between two copies of one separator matches. |
| `PathResolver.WindowsPathMatchesFrontend` | test/standalone_test.js:72 | The Windows test path contains `\frontend\`. |
| `PathResolver.LinuxPathMatchesBackend` | test/standalone_test.js:83 | The Linux test path contains `/backend/`. |
| `PathResolver.LinuxPathMissesFrontend` | test/standalone_test.js:83 | The Linux test path does not match `frontend`. |
| `PathResolver.LinuxPathMatchesApi` | test/standalone_test.js:83 | The Linux test path also contains `/api/`. |
| `ResolutionCache.KeysAfterMiss` | test/standalone_test.js:62-66 | After a miss the key order ends with the new path. Before it come the newest old keys: all of them, or all but the oldest when the cache was full. |
| `ResolutionCache.CacheInv` | test/standalone_test.js:50-68 | The consistency of the cache: at most 100 distinct keys in insertion order, the same keys as the map, none empty, each mapped to its uncached resolution. EvictKeeps, AppendKeeps and Get preserve it. |
| `ResolutionCache.PathColorCache.Valid` | test/standalone_test.js:43-68 | The class invariant: CacheInv of the fields. Every method of the class keeps it. |
| `ResolutionCache.EvictKeeps` | test/standalone_test.js:62-65 | Deleting the first key keeps the cache consistent and shrinks it by one. |
| `ResolutionCache.AppendKeeps` | test/standalone_test.js:66 | Storing a new non-empty path with its resolution keeps the cache consistent. |
| `ResolutionCache.PathColorCache.constructor` | test/standalone_test.js:43-48 | A new cache over a table is empty and consistent. |
| `ResolutionCache.PathColorCache.Clear` | test/standalone_test.js:94 | `clear()` leaves an empty, consistent cache. |
| `ResolutionCache.PathColorCache.Get` | test/standalone_test.js:50-68 | The result is always the uncached resolution. On a hit it is the stored value, and the empty path and a hit leave keys and map unchanged. A miss drops exactly the oldest key when 100 are stored, then appends the path with its result, null included. The size never exceeds 100. |
| `ResolutionCache.NewestStep` | test/standalone_test.js:62-66 | The newest-n window of a sequence with one more element drops its oldest element when it was full, then ends with the new one. |
| `ResolutionCache.LookupAll` | test/standalone_test.js:95-97 | Looking up distinct non-empty paths from an empty cache leaves exactly the newest 100 of them as keys, in lookup order. |
| `ResolutionCache.EvictionScenario` | test/standalone_test.js:92-98 | After `clear()` and 105 distinct lookups, exactly 100 entries remain: the last 100 paths. The first 5 are gone. |
| `ResolutionCache.RepeatedLookup` | test/standalone_test.js:72-80 | Two lookups of one path in a fresh cache return equal results and leave a single entry. |
| `ResolutionCache.WindowsPathSample` | test/standalone_test.js:72-75 | `C:\projects\my-app\frontend\src\index.js` resolves to `frontend` with `#dc3545`. |
| `ResolutionCache.LinuxPathSample` | test/standalone_test.js:82-85 | `/home/user/backend/api/main.py` resolves to `backend` with `#007acc`. |
| `Extension.FindColor` | extension.js:132 | `find` returns none exactly when no palette entry has the colour. Otherwise it returns the first entry that has it. |
| `Extension.PaletteIcon` | extension.js:132 | The palette lookup with the `📁` fallback. Its contract is carried by PaletteIconSpec: the icon of a palette entry with an equal colour, and `📁` exactly when there is none. |
| `Extension.PaletteIconSpec` | extension.js:132 | A colour string-equal to a palette colour gets that entry's icon. The result is `📁` exactly when no palette colour equals the colour. |
| `Extension.RedIcon` | extension.js:9 | `#dc3545` gets the red icon. |
| `Extension.UpperCaseRedIcon` | extension.js:132 | `#DC3545` gets `📁`, because the lookup is case-sensitive. |
| `Extension.CustomSentinelIcon` | extension.js:17 | A folder whose colour is the literal string `custom` gets the palette's `🎨`. |
| `Extension.DefaultTableFirstMatch` | extension.js:20-24 | With the default table, `/home/user/backend/api/main.py` also matches `api` but resolves to `backend`, which comes earlier in the table. |
| `Extension.TabFolder` | extension.js:125-127 | The folder of one tab: null without a uri, otherwise the resolution of its path. ResolvedSpec carries the contract over all tabs. |
| `Extension.Resolved` | extension.js:124-127 | The folders the tabs resolve to, in tab order. Its contract is carried by ResolvedSpec and CountResolved. |
| `Extension.Record` | extension.js:128-135 | One `set`-if-absent then `count++`. Its contract is carried by TallySpec, and by RecordFolder which performs it in place. |
| `Extension.Tally` | extension.js:121-135 | The map built from a cleared `openTabsInfo`. Its contract is carried by TallySpec: exactly the recorded names, each counted by its number of records and at least 1, with the colour and icon of its first record. |
| `Extension.ResolvedSpec` | extension.js:124-127 | A folder is among the resolved ones exactly when some tab with a uri resolves to it. |
| `Extension.CountResolved` | extension.js:125-135 | Counting resolved folders by name counts the tabs that resolve to that name. |
| `Extension.CountNameConcat` | extension.js:135 | Counts by name add up over concatenation. |
| `Extension.TallySpec` | extension.js:127-135 | After recording into a cleared map, the keys are exactly the recorded names. Each count is the number of records with that name and at least 1; absent names have none. Colour and icon come from the first record of the name. |
| `Extension.ScanKeys` | extension.js:120-140 | After a scan, a name is a key exactly when some tab with a uri resolves to a folder of that name. Nothing from before the scan survives. |
| `Extension.ScanCounts` | extension.js:128-135 | After a scan, each count is the number of tabs resolving to that folder, and at least 1. |
| `Extension.ScanColorIcon` | extension.js:129-133 | After a scan, each record carries the table's colour for its name and the palette icon of that colour. |
| `Extension.TallyTab` | extension.js:125-135 | One more tab updates the tally by recording its folder, if it has one. |
| `Extension.FlattenStep` | extension.js:123-124 | The tabs of one more group come after all earlier tabs. |
| `Extension.ActiveFolder` | extension.js:217-219 | The folder of the active editor: null without an editor, otherwise the resolution of its path. UpdateColor and OnActiveEditorChanged carry the contract. |
| `Extension.ExtensionState.constructor` | extension.js:3-6 | At load time no colour or folder is selected and no tabs are recorded. |
| `Extension.ExtensionState.ScanAllOpenTabs` | extension.js:120-140 | `openTabsInfo` becomes the tally of the folders that the tabs of all groups resolve to, in order. Nothing else changes. |
| `Extension.ExtensionState.ScanGroup` | extension.js:124-138 | The inner loop extends the tally of the earlier tabs by the tabs of one group. |
| `Extension.ExtensionState.RecordFolder` | extension.js:128-135 | Creates the record with count 0 if absent (colour and palette icon), then increments its count. |
| `Extension.ExtensionState.ChangeWorkspaceColor` | extension.js:142-150 | With null, or with name and colour both equal to the current pair, the state is unchanged. Otherwise the pair becomes the info's and `openTabsInfo` is rescanned. |
| `Extension.ExtensionState.UpdateColor` | extension.js:216-224 | With an active editor whose path resolves, the guard is applied to that folder. Otherwise nothing changes. |
| `Extension.ExtensionState.OnActiveEditorChanged` | extension.js:36-39 | Both fields are reset to null, then the active editor's folder, if any, is always applied. |
| `Extension.ApplyTwice` | extension.js:143-145 | Applying the same folder twice in a row suppresses the second application. |
| `Extension.Recolor` | extension.js:143-148 | Re-applying the current folder with a different colour is not suppressed, and takes the new colour. |

## Left out

- VS Code plumbing is not modelled because it is UI, I/O or asynchronous. That covers:
  - `activate`/`deactivate` and command registration;
  - the status bar (`updateStatusBar`);
  - quick picks and input boxes;
  - configuration reads and writes;
  - the async command handlers.
- The folder table is passed in as a parameter, and tabs, tab groups and the active editor are passed in as values.
- The table-edit commands (add, edit, remove, list, change colour) are not modelled. Each is a single-key put or delete wrapped in prompts and a configuration write.
- The `colorCustomizations` object is not modelled, and neither is its workspace write. They are presentation output, built by appending alpha suffixes to the colour.
  - `lightColor` is computed but never used.
  - `darkColor` and `multipleProjects` feed only that object.
  - ChangeWorkspaceColor therefore does not compute the dark shade. Doing so would need a valid hex colour, which the source never checks for a configured colour.
- Floating-point rounding: `Amount` is exact round-half-up of 255·p/100. `Math.round(2.55 * p)` on IEEE doubles is not modelled; it can differ at the exact-half percentages (p ≡ 10 mod 20). It agrees with `Amount` for 15 and 10, the only values the callers pass.
- `parseInt` on malformed input (NaN propagation) is not modelled. `AdjustColor` requires a colour accepted by the validator, because the source performs no check of its own.
- `getColorForPath` returns null for any falsy path. Only the empty string is modelled, since paths are strings here. Non-string values do not arise from `fsPath`.
- JavaScript's `Object.entries` order (integer-like keys first) is not modelled: the table's sequence order is taken as the iteration order. A table may list a name twice. The first occurrence wins, as in the loop.
- Only `openTabsInfo`'s contents are modelled, not its key order. Two readers use that order, and both are left out: the status-bar tooltip (extension.js:203-206) and the quick-pick list of `showOpenProjectsCommand` (extension.js:235).
- Cache invalidation is not modelled. `PathColorCache` resolves against a table fixed when it is constructed. extension.js has no cache. In test/standalone_test.js nothing clears `pathColorCache` when `foldersCache` changes; only the explicit `clear()` at line 94 empties it, and `Clear` models that. Stale hits after a change to the table are therefore not modelled.
- test/suite/extension.test.js is not part of this model. It consists of integration tests that need a running editor host. One command it lists, `autoFolderColors.applyManualColor`, is not registered by extension.js.
- The `console.log` debug line inside the standalone `adjustColor` is not modelled, and neither is the test runner's output.
- ExtensionState.ScanAllOpenTabs splits the source's inner loop over one group's tabs into `ScanGroup`, and the loop body into `RecordFolder`. The loops and the per-tab steps are unchanged.
- The memoised test's repeated path lookup is stated for a fresh cache, as in the test. The general hit behaviour is part of `Get`.
