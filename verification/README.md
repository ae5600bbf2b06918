# Arboretum map export, modelled in Dafny

The plan-arboretum WordPress plugin publishes the trees of an arboretum as a
static JSON file that a Leaflet map reads. An administrator triggers "generate
now". The plugin then reads every published `arbre` post and checks that it has
a number (`id_arbre`) and both RGF93 CC44 coordinates (`easting`, `northing`).
It converts the coordinates of the valid trees to WGS84 and writes
`uploads/carte-data/arbres.json`. It reports the rejected trees one line each
and records the generation time. Before the next run, a status check tells the
administrator whether any published tree changed since that time.

This project models that pipeline as pure functions over immutable data:

- `seqs.dfy` (`Seqs`): order-preserving `Filter` and `Map`. These are the
  reference definitions the export is compared against.
- `php.dfy` (`Php`): the PHP semantics the code relies on. A string is falsy
  exactly when it is `""` or `"0"`. `implode` joins parts with a separator.
  `str_replace` replaces leftmost occurrences without overlap.
- `model.dfy` (`Model`): trees, exported entries, points, timestamps. The
  projection is a function-typed value `Projection`.
- `validation.dfy` (`Validation`): the three field checks, their fixed messages
  and the error line of a rejected tree.
- `export.dfy` (`Export`): one pass over the trees. It splits them into entries
  and error lines and makes the URL relative.
- `store.dfy` (`Store`): the ordered store steps over an abstract store state.
  The steps are mkdir if absent, then the writability check, then the write,
  then the timestamp option.
- `generation.dfy` (`Generation`): the whole `generer_json_arbres` run and the
  array it returns.
- `staleness.dfy` (`Staleness`): `verifier_statut_json_arbres`. Its date query
  and the report built from it exist both as written and corrected (see
  Findings).
- `pipeline.dfy` (`Pipeline`): the run and the status check together, and a
  three-tree scenario.

The host is replaced by inputs:

- `get_posts` becomes a sequence of `Tree` values in query order.
- `get_post_meta` and `get_the_title` become string fields.
- `get_permalink` and `home_url` become strings.
- `wp_upload_dir()['basedir']` becomes `Site.uploadBaseDir`.
- `current_time` becomes an injected `now` in seconds.
- The file system and the option table become a `StoreState` record. That
  record says whether the directory exists and how `mkdir`, `is_writable` and
  `file_put_contents` will answer. It also holds the file contents and the
  stored generation time.
- The coordinate conversion and `json_encode` are function parameters.

Two behaviours of the code are worth knowing:

- The string `"0"` is falsy in PHP, so `!$easting` (and the other two tests)
  rejects a coordinate equal to `"0"` as missing.
  `Validation.ZeroCoordinateIsMissing` states it.
- `file_put_contents` writes the file in place and may truncate it before
  failing. So a failed write leaves either the old file or a truncated
  residue (`Store.WriteBehaviour`).

## Model

| member | source | states |
|---|---|---|
| Validation.Problems | inc/functions.php:74-78 | with PHP truthiness of a string as `Php.Truthy` (falsy exactly for `""` and `"0"`): a message is present exactly when its field is PHP-falsy; each check runs even if an earlier one failed; messages come in the order numero, easting, northing; the list is empty exactly when the tree is eligible |
| Validation.ErrorLine | inc/functions.php:81 | the line is `- "`, the tree's name, `" : `, then the first problem; with a single problem the line is exactly `- "<nom>" : <problem>` |
| Validation.ErrorLineEndsWithLastProblem | inc/functions.php:81 | adding a problem appends `", "` and that problem to the line |
| Validation.ZeroCoordinateIsMissing | inc/functions.php:77 | an easting of `"0"` makes the tree ineligible and is reported as missing |
| Php.Implode | inc/functions.php:81 | joining no parts gives the empty string; joining one part gives that part; a join starts with its first part |
| Php.ImplodeSnoc | inc/functions.php:81 | joining from the left equals appending the separator and the last part |
| Php.StrReplace | inc/functions.php:89 | an empty search leaves the subject unchanged; removing text never lengthens it |
| Php.StrReplaceNoOccurrence | inc/functions.php:89 | a subject without the search string is returned unchanged |
| Php.StrRemoveShortens | inc/functions.php:89 | removing a non-empty search string that occurs shortens the subject |
| Php.StrRemoveUnchangedIff | inc/functions.php:89 | removing a non-empty search string leaves the subject unchanged exactly when it does not occur |
| Php.StrRemovePrefix | inc/functions.php:89 | removing the prefix from prefix + rest gives rest, when rest does not contain the prefix |
| Export.RelativeUrlOfPermalink | inc/functions.php:87-89 | `Export.RelativeUrl` is `str_replace(home, '', url)`; for a permalink `home + path` with no `home` inside `path`, the exported URL is `path` |
| Export.Partition | inc/functions.php:67-99 | every tree lands in exactly one list; every exported entry has a truthy number; every error line starts with `- "` |
| Export.PartitionResultsAreEligibleEntries | inc/functions.php:67-99 | the exported entries are the eligible trees, each mapped to its entry, in input order |
| Export.PartitionErrorsAreRejectionLines | inc/functions.php:67-99 | the error lines are those of the rejected trees, in input order |
| Export.ExportedEntriesMatchEligibleTrees | inc/functions.php:85-98 | about the entries built by `Export.EntryOf`: an entry is exported exactly when some eligible tree has its id, number and name, the projected lat/lng of its easting and northing, and its permalink with the home URL removed |
| Store.MessageInjective | inc/functions.php:106-119 | about `Store.Message`, the three messages of lines 108, 113 and 118: different failing steps, or the same step on different directories, give different messages |
| Store.StoreExport | inc/functions.php:103-122 | the first failing step decides the error: mkdir (tried only if the directory is absent), then writability, then the write; a failure never records a time; failing before the write leaves the file unchanged; success stores the JSON and the time `now`; nothing else in the state changes |
| Generation.Generate | inc/functions.php:56-130 | with the directory `Store.DataDir(basedir)` = `basedir + "/carte-data"` (line 104): success happens exactly when all store steps succeed; then the valid count plus the error count is the number of trees, the valid count is the number of eligible trees, the errors are the rejection lines in order, the file is the encoding of the eligible entries, and the time is `now`; each failing step returns its own message and keeps the old time |
| Generation.RegenerationIsIdempotent | inc/functions.php:101-117 | two successful runs over the same trees write the same file contents |
| Generation.FailedRunKeepsGenerationTime | inc/functions.php:106-122 | a run whose store steps fail returns a failure and keeps the stored generation time |
| Staleness.ModifiedSinceAsWritten | inc/functions.php:267-278 | as written: lists exactly the published trees whose local `post_modified` is strictly after the stored time |
| Staleness.ModifiedSince | inc/functions.php:267-278 | corrected: lists exactly the published trees whose GMT modification time is strictly after the stored time |
| Staleness.CheckStatusAsWritten | inc/functions.php:256-285 | as written: never generated gives not up to date, an empty list and no time; otherwise the report keeps the time, lists exactly the trees whose local `post_modified` is strictly after it, and is up to date exactly when that list is empty |
| Staleness.CheckStatus | inc/functions.php:256-285 | never generated: not up to date, an empty list, no time. Otherwise the report keeps the time, lists exactly the trees whose GMT modification time is strictly after it, and is up to date exactly when that list is empty, that is, when no tree was modified after it |
| Staleness.AsWrittenListsExportedTree | inc/functions.php:273 | at UTC+2, the query as written still lists a tree whose edit is already in the export, so the report is not up to date; the corrected query and report say up to date |
| Staleness.AsWrittenMissesLaterEdit | inc/functions.php:273 | at UTC-2, the query as written misses an edit made after the export, so the report says up to date; the corrected query lists it and the report is not up to date |
| Pipeline.UpToDateAfterGeneration | inc/functions.php:256-285 | right after a run at `now` whose store steps succeed, with no tree edited after `now`, the status is up to date with an empty list |
| Pipeline.LaterEditIsReported | inc/functions.php:256-285 | a tree edited after a run whose store steps succeed is listed, and the status is not up to date |
| Pipeline.ThreeTreeRun | inc/functions.php:67-129 | one complete tree, one without easting and one without number and with a zero northing give `Generated(1, 2, …)`; the second error line names both problems, separated by `", "` |

## Left out

- The coordinate conversion (`convertir_coords_rgf93cc44_to_wgs84`, inc/functions.php:24-39) is floating-point Lambert Conformal Conic code in the Proj4php library, which is not part of this model. It is the `Projection` parameter, a total function of the raw easting and northing strings. The model cannot represent an exception from the conversion (documented as possible at inc/functions.php:22). Such an exception at line 85 would end `generer_json_arbres` before line 101: no file written, no option updated and no response array. `Generation.Generate` always returns a response. WGS84 range bounds are not stated.
- `json_encode` with pretty printing and unescaped Unicode and slashes (inc/functions.php:101) is the `Encoder` parameter. Its exact bytes are not modelled; only its determinism is used.
- WordPress queries and metadata (`get_posts`, `get_post_meta`, `get_the_title`, `get_permalink`, `home_url`, `wp_upload_dir`, `get_option`, `update_option`, `current_time`) are inputs. Meta values are modelled as strings. A serialized non-string meta value is not modelled.
- Timestamps are whole seconds. The MySQL `Y-m-d H:i:s` string format and its parsing are not modelled.
- `mkdir` is modelled only by whether it succeeds. Its recursive parent creation, the 0755 mode, and a `file_exists` hit on a plain file are not modelled.
- Concurrent runs are not modelled: the code has no lock, and the last writer wins.
- The admin page, status rendering, documentation and the `admin_menu` hook (inc/functions.php:135-250 and 287-362) are HTML output. `plan-arboretum.php` (asset and shortcode glue) and `js/carte.js` (Leaflet rendering and `getHighlightIds`) are outside the export pipeline.

## Findings

| source | as written | input that shows it | evidently intended | confidence | as-written member | corrected member |
|---|---|---|---|---|---|---|
| inc/functions.php:122 and inc/functions.php:273 | The generation time is stored in GMT (`current_time('mysql', true)`). The staleness query compares it with `post_modified`, which is in the site's local time. | At UTC+2, a tree is edited at 10:00 GMT (12:00 local) and exported at 11:00 GMT: it is still listed as modified. At UTC-2, a tree edited at 12:00 GMT (10:00 local) after an 11:00 GMT export is missed. | Compare on one clock, for example with the `post_modified_gmt` column. | medium, not executed | Staleness.ModifiedSinceAsWritten and Staleness.CheckStatusAsWritten (shown by Staleness.AsWrittenListsExportedTree and Staleness.AsWrittenMissesLaterEdit) | Staleness.ModifiedSince, used by Staleness.CheckStatus (proved by Pipeline.UpToDateAfterGeneration and Pipeline.LaterEditIsReported) |
