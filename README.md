# imx_analysis — a verified model of the ingestion and provenance core

imx_analysis pulls asset and transfer records for Immutable X tokens from a
rate-limited, paginated REST API. It stores them in a small database with
insert-once (`get_or_create`) semantics. It rebuilds each asset's provenance
from its transfer history: the minting address, the first holder after the
mint, and the number of transfers. It then projects records into row
dictionaries and writes CSV files and two transfer summaries.

This Dafny project models that core and proves properties of it. There is
one module per source file, plus two support modules:

- `Common` (common.dfy; support, no source file): optional values, results with an error side, and JSON values.
- `Store` (store.dfy; the `get_or_create` tables of deserializers.py:5-21, searches.py:161-169 and searches.py:188-197): a database table.
  - `Store.Table` is a class whose `rows` map the methods update in place.
  - `Store.InsertOnce` and `Store.InsertAll` are the pure specifications of a single `get_or_create` and of a run of them.
- `Models` (models.dfy; models.py): the three record kinds and the `to_dict` projections.
- `Deserializers` (deserializers.dfy; deserializers.py): `create_asset`, an insert-once upsert keyed by `token_address + "-" + token_id`.
- `Searches` (searches.dfy; searches.py):
  - the retrying request;
  - cursor pagination;
  - the blueprint comma split and blueprint `get_or_create`;
  - the search by blueprint;
  - the replay of the transfer chain.
- `Utils` (utils.dfy; utils.py): the CSV header key union and the transfer summaries.

Each imperative loop of the source is a `method` with a `while` loop. The
method is proved against a pure function of its inputs and the old table:
`FinalIndex`/`BackoffSchedule`, `RecordsUpTo`/`CreateAssets`, `BlueprintSearch`,
`Replay`/`InsertAll`, and `KeyUnion`. The source's promises are then proved
as lemmas about those functions.

Upstream answers are parameters:
- the sequence of status codes the server would return;
- the sequence of listing pages;
- a function from token to asset detail body;
- the raw `blueprint` value of the mintable-token answer;
- the list of transfer bodies.

Waits are integer milliseconds (200 ms, doubling each time).

Notes on what the code does, which the model follows:
- A null `metadata` is stored as null, not normalised to an empty mapping (deserializers.py:16). So `Asset.to_dict` raises on such an asset, modelled as `Err(NullMetadata)`.
- There is no "provenance computed" flag on an asset (models.py:34-51).
- The transfer history is one response and is not paginated (searches.py:182-183).
- The provenance fields are set on the returned asset but not saved by `get_transfer_history_of_asset` itself (searches.py:206-210).

## Model

| member | source | states |
|---|---|---|
| Store.InsertOnce | deserializers.py:5-21 | `get_or_create`: the stored record is returned and the table is unchanged when the key exists (defaults ignored). Otherwise the defaults are stored and returned. Created iff the key was absent. Only that key is added; every other entry is unchanged. |
| Store.InsertOnceIdempotent | deserializers.py:5-21 | A second `get_or_create` of the same key leaves the table as the first left it. It returns the first record and is not created, whatever its defaults. |
| Store.InsertOnceKeepsEntries | deserializers.py:5-21 | No stored entry is changed by a `get_or_create`. |
| Store.InsertAll | searches.py:186-199 | A run of `get_or_create` calls returns one record per entry. |
| Store.InsertAllKeys | searches.py:186-199 | After a run of `get_or_create` calls the table holds exactly the old keys plus the keys of the run, with pre-existing entries unchanged. |
| Store.InsertAllStored | searches.py:186-199 | Each record a run returns is the one stored under its key afterwards. |
| Store.InsertAllFirstWins | searches.py:186-199 | The record returned for the first entry of a key not yet stored is that entry's defaults: later entries of the key do not replace it. |
| Store.InsertAllAppend | searches.py:61-62 | Running one batch and then another equals running their concatenation: tables and returned records agree. |
| Store.InsertAllPresent | searches.py:186-199 | A run whose keys are all stored changes nothing and returns the stored records. |
| Store.InsertAllRepeat | searches.py:186-199 | Re-running a run on the table it produced changes nothing and returns the same records (safe re-ingestion). |
| Store.InsertAllKeyed | searches.py:186-199 | A run whose values carry their own key keeps a table keyed by that key. |
| Store.Table.GetOrCreate | deserializers.py:5-21 | The in-place `get_or_create` leaves the table, record and created flag that `InsertOnce` specifies. |
| Store.Table.Save | searches.py:88 | `save` writes the record under its key and changes nothing else. |
| Models.GetBlueprintData | models.py:5-19 | Exactly the three blueprint keys. All null without a blueprint; otherwise the blueprint's raw string, name and edition. |
| Models.AssetColumns | models.py:57-75 | The fixed part of an asset row has exactly the 18 fixed column names. |
| Models.AssetToDict | models.py:53-76 | Fails exactly when the collection or the metadata is null (each with its own error). Otherwise: keys are the 18 fixed columns plus the metadata keys; every metadata key carries the metadata value (the metadata wins a collision); every other fixed key carries the fixed column's value. |
| Models.AssetToDictProvenance | models.py:73-75 | Unless the metadata overrides them, `mint_address`, `first_non_mint_address` and `num_transfers` are copied verbatim. |
| Models.AssetToDictCollection | models.py:67 | Unless the metadata overrides it, `collection` is the collection mapping's "name" entry, or null when it has none. |
| Models.AssetToDictBlueprint | models.py:54-72 | Unless the metadata overrides them, the three blueprint columns are the blueprint projection, all null for an asset without one. |
| Models.TransferToDict | models.py:87-111 | Exactly the ten transfer columns. Receiver, status, timestamp, transaction id and sender are copied, plus the asset's token address and id. The blueprint columns come from the asset's blueprint and are all null when it has none. |
| Deserializers.AssetKey | deserializers.py:6 | The key is as long as the token address, one separator and the token id together. |
| Deserializers.AssetKeyParts | deserializers.py:6 | The asset key is the token address, a dash, then the token id. |
| Deserializers.NewAsset | deserializers.py:7-20 | A new asset takes every column from the body, under the body's key. It has no blueprint and no provenance. |
| Deserializers.CreateAsset | deserializers.py:4-23 | `create_asset` updates the asset table as an insert-once upsert of the body's key and returns the stored asset. A table where every asset sits under its own id stays so. |
| Deserializers.CreateAssetIdempotent | deserializers.py:5-21 | A second `create_asset` for the same key, whatever its body, leaves the table and returned asset as the first call left them. For a new key the first call returns the asset built from its body. |
| Deserializers.CreateAssets | searches.py:61 | Creating a list of bodies returns one asset per body. |
| Deserializers.CreateAssetsStored | searches.py:61 | Creating a list of bodies returns one asset per body, each the stored asset of the body's key. Assets stored before are unchanged and the table stays keyed by id. |
| Deserializers.CreateAssetsFirstWins | searches.py:61 | The asset returned for the first body of a key not yet stored is the one built from that body. |
| Deserializers.CreateAssetsRepeat | searches.py:61 | Ingesting the same bodies again changes nothing and returns the same assets. |
| Searches.BackoffSchedule | searches.py:27-43 | The waits start at 200 ms and each is twice the one before: wait k is 200·2^k ms. |
| Searches.FinalIndex | searches.py:31 | The position of the first status that is neither 429 nor in 500-599: every status before it is retried. |
| Searches.RateLimitedRequest | searches.py:26-45 | At least one request is issued. Requests repeat exactly while the status is 429 or 5xx, sleeping 200·2^k ms before retry k. The first other status (including any other 4xx) is returned after FinalIndex+1 requests. When the given statuses run out first, no response is returned. |
| Searches.LastPageFrom | searches.py:51-65 | The first page from a given position after which the loop stops, because `remaining` ≤ 0 or the test-mode count reached 100. No page before it stops the loop. |
| Searches.LastPageIs | searches.py:51-65 | The first page that stops the loop is the last page read. |
| Searches.CreateAssetsConcat | searches.py:61-62 | Creating the assets of two lists in turn equals creating those of their concatenation. |
| Searches.CreateAssetList | searches.py:61 | The list comprehension of `create_asset` stores the bodies in order and returns the assets the batch specification gives. |
| Searches.StorePage | searches.py:61-62 | One turn of the pagination loop extends the stored assets by the page's bodies. |
| Searches.GetAssetListByMetadata | searches.py:47-67 | The first request has no cursor and each later one the previous page's cursor. The loop stops after the first page with `remaining` ≤ 0, or in test mode once 100 or more assets are collected. The result, and the table, are those of creating every read page's bodies in page order. `complete` is false only when the given pages end first. |
| Searches.PaginationComplete | searches.py:51-59 | When only the last page reports nothing remaining, outside test mode every page is read. |
| Searches.TestModeBound | searches.py:64-65 | In test mode the count before the last page is below 100. The total exceeds 100 by less than that last page's size. A run stopped by the cap has reached 100. |
| Searches.Split | searches.py:154 | `str.split`: at least one field, no field holds the separator, one field exactly when the separator is absent, and joining the fields gives back the string. |
| Searches.SplitJoin | searches.py:154 | Splitting the join of separator-free fields gives back those fields. |
| Searches.ParseBlueprint | searches.py:153-159 | Name and edition are both present or both null. They are null exactly when the string is null or holds no comma (the swallowed exception). Otherwise they are fields 0 and 1 of the comma split. |
| Searches.ParseBlueprintPositions | searches.py:154-156 | With a comma, name is the text before the first comma. Edition is the text after it, up to the next comma or the end. Neither holds a comma, and any further fields are ignored. |
| Searches.ParseBlueprintTwoFields | searches.py:153-156 | `"EditionX,5"` parses to name `EditionX`, edition `5`. |
| Searches.ParseBlueprintThreeFields | searches.py:153-156 | A third field is ignored: `"Sword,12,gold"` gives `Sword`, `12`. |
| Searches.ParseBlueprintOneField | searches.py:153-159 | `"NoComma"` gives both null, without failing. |
| Searches.NewBlueprint | searches.py:161-169 | A new blueprint is keyed by the raw string. It carries the parsed name and edition and the asset's token address and id. |
| Searches.GetBlueprintOfAsset | searches.py:149-171 | The blueprint table updates as an insert-once upsert of the raw string, and the stored blueprint is returned. |
| Searches.GetBlueprintOfAssetKeyed | searches.py:161-169 | A blueprint table keyed by raw string stays so, and the returned blueprint is that of the raw string asked for. |
| Searches.LookupByBlueprint | searches.py:81-83 | `get_or_none(blueprint=...)`: not found iff no stored asset has the blueprint. Several iff more than one has it. A found asset has the blueprint. |
| Searches.LookupByBlueprintFound | searches.py:81-83 | A found asset is the single stored asset of the blueprint. |
| Searches.LookupByBlueprintMeaning | searches.py:81-83 | The three outcomes in terms of stored assets. None has the blueprint; or the found one is the only one; or two distinct assets have it. |
| Searches.FindByBlueprint | searches.py:81-83 | The lookup in the loop computes `LookupByBlueprint` of the current table. |
| Searches.SearchStep | searches.py:80-90 | One turn of the search. Several assets abort it, with nothing changed. Otherwise exactly one asset, carrying the blueprint, is appended after the earlier ones. A found asset is reused with the table unchanged. |
| Searches.BlueprintSearch | searches.py:80-90 | The search returns at most one asset per matching blueprint, and one for each unless it aborted. No stored asset is removed. |
| Searches.GetAssetListByBlueprint | searches.py:69-96 | The loop over the matching blueprints leaves the table, assets and abort flag that `BlueprintSearch` specifies. |
| Searches.BlueprintSearchAborted | searches.py:81-83 | Once a lookup finds several assets, later blueprints change nothing. |
| Searches.BlueprintSearchLength | searches.py:80-90 | One asset per blueprint read: fewer assets than blueprints exactly when the search aborted. |
| Searches.BlueprintSearchOrder | searches.py:80-90 | The i-th asset carries the i-th matching blueprint. |
| Searches.SearchStepFetches | searches.py:84-88 | When none is stored, the detail body's asset (the stored one of its key, or a new one) is given the blueprint. It is saved under its own key and appended; other entries are unchanged. |
| Searches.BlueprintSearchKeyed | searches.py:80-90 | The search keeps every asset under its own id. |
| Searches.BlueprintSearchReuses | searches.py:80-90 | When every blueprint already has exactly one stored asset, nothing is fetched or written. The result is those assets in blueprint order. |
| Searches.NewTransfer | searches.py:188-197 | A new transfer takes the body's fields and refers to the asset. |
| Searches.Replay | searches.py:186-208 | On success the transfer count is the list length, and there is no first non-mint address exactly when there are no transfers. The full meaning is `ReplayCorrect`. |
| Searches.ReplayCorrect | searches.py:186-208 | The replay succeeds iff each transfer was received by the holder before it (the owner for the newest, otherwise the next transfer's sender). The mint address is then the oldest transfer's sender, the first non-mint address the holder before it (null without transfers), and the count the list length. A failure is at the first transfer whose receiver is not that holder. |
| Searches.ReplayPrefixErr | searches.py:203-204 | A failure stops the replay: the result stays that failure whatever older transfers follow. |
| Searches.ReplayExample | searches.py:174-208 | Owner C with transfers C←B then B←A gives mint A, first non-mint B, 2 transfers. |
| Searches.ReplayNoTransfers | searches.py:174-176 | Without transfers: the mint address is the owner, no first non-mint address, count 0. |
| Searches.ReplayMismatch | searches.py:200-204 | Owner C with a transfer received by B fails at transfer 0. |
| Searches.WithProvenance | searches.py:206-208 | Sets the three provenance fields and leaves every other field unchanged. |
| Searches.GetTransferHistoryOfAsset | searches.py:173-210 | Each transfer body is stored by transaction id, and the stored transfers are replayed. On success the table is that of storing them all, and the asset comes back with the replay's provenance together with the stored transfers. On a mismatch at k, `Err(k)` is returned; only the transfers up to k are stored and the asset is untouched. |
| Utils.KeyUnion | utils.py:21-24 | Every key of every row is in the union. |
| Utils.KeyUnionOnly | utils.py:21-24 | Every key of the union is a key of some row. |
| Utils.CsvFieldNames | utils.py:20-27 | The CSV field set contains every row's keys and nothing else. It is empty for no rows. |
| Utils.IndexColumn | utils.py:41-44 | Direction `out` keys the summaries by receiver, any other direction by sender. |
| Utils.CreateTransferSummaries | utils.py:37-51 | Fails exactly when the blueprint-name or the index column is absent from every row (always for no rows). The error names such a column. Otherwise the result is the cross-tab and the per-name totals. |
| Utils.SummariesExample | utils.py:37-51 | Two "Foo" transfers to U1 and one "Bar" to U2, direction `out`: U1/Foo = 2, U2/Bar = 1; Foo = 2, Bar = 1. |
| Utils.CrossTab | utils.py:46-47 | Each row adds at most one cell, so there are no more cells than rows. The full meaning is `CrossTabCounts`. |
| Utils.Totals | utils.py:49 | Each row adds at most one total, so there are no more totals than rows. The full meaning is `TotalsCount`. |
| Utils.CrossTabCounts | utils.py:46-47 | A cell exists exactly for a non-null (key, name) pair some row carries. It holds the number of rows carrying that pair. |
| Utils.TotalsCount | utils.py:49 | A total exists exactly for a non-null name some row carries. It holds the number of rows carrying that name. |
| Utils.ColumnSum | utils.py:47-49 | When every row has its index value, a blueprint name's cross-tab column adds up to that name's total. |

## Left out

- tui.py: the Textual user interface, its database start-up and directory creation are not part of this model.
- `send_to_log`, progress bars and loading indicators (searches.py:20-24, 73-78, 91-94, 103-145): display only.
- `get_asset_data` (searches.py:100-147): orchestration and UI; each operation it calls is modelled.
- `Asset.save` of the provenance in `get_asset_data`: orchestration; see the line above.
- Network, TLS, `httpx`, async/await and JSON decoding: replaced by parameters holding the answers.
- `time.sleep`: the waits are returned as a list of milliseconds instead of being slept.
- Searches.RateLimitedRequest: the source retries without bound. The model reads a finite list of statuses and reports `NoFinalResponse` when it ends while a retry is still due.
- Searches.RateLimitedRequest: the float wait 0.2·2^k s is modelled as 200·2^k integer milliseconds.
- Searches.GetAssetListByMetadata: the source loops for as long as the server returns pages. The model reads a finite list and reports `complete == false` when it ends first.
- The response status of the detail, mintable-token and transfer requests is not inspected by the source and is not modelled. Only the decoded bodies are parameters.
- Searches.GetAssetListByBlueprint: `Blueprint.filter(name=...)` is the `matching` parameter, in the order the store returns it.
- Searches.GetAssetListByBlueprint: the detail request is the function parameter `detail`.
- Searches.GetAssetListByBlueprint: `MultipleObjectsReturned` is modelled as `failed == true`, and the writes before it stay in the table.
- ORM internals (Tortoise querysets and lazy relations): tables are maps keyed by natural key (asset id, raw blueprint value, transaction id).
- Deserializers.AssetDict and Searches.TransferDict: the NOT NULL text columns are typed as strings. These are the asset's token_address, token_id, user, name, created_at and updated_at (models.py:36-38, 41, 46-47) and the transfer's receiver, status, timestamp and user (models.py:80-84). A null in an upstream body, which the database would reject at the `get_or_create`, cannot be represented.
- The NOT NULL constraint on `Blueprint.name`/`edition` (models.py:25-26) is not modelled. For a malformed string the code passes null and the database would reject it. The model stores the null fields.
- Deserializers.AssetKeyParts: it does not claim that `address + "-" + id` is injective. Addresses or ids containing `-` can collide.
- Utils.CreateTransferSummaries: pandas internals (dtypes, NaN, frame layout) are not modelled. The summaries are count maps. Missing group keys are dropped as pandas does by default, and a column absent from every row is the `KeyError`.
- Utils.ColumnSum: it requires every row to have an index value. Rows without one are dropped from the cross-tab but still counted in the totals.
- CSV writing, `to_csv`, `create_dir_if_not_exist`, `write_list_of_tortoise_objects_to_csv` and `create_transfer_output_files` (utils.py:11-17, 26-34, 54-61): file output.
- The unordered `set(assets)` dedupe of utils.py:55 is output-side only.
- `log_exceptions` (utils.py:64-70): UI error display.
- `Blueprint.__str__` (models.py:30-31): display only.
