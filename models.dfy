/** The three record kinds of the database (blueprint, asset, transfer) and
    the projections that turn a record into the dictionary of one output row. */
module Models {
  import opened Common

  /** The primary key of a blueprint: the raw upstream blueprint string, which
      the mintable-token endpoint may also report as null. */
  type BlueprintId = Option<string>

  /** A collection/edition descriptor, keyed by its raw string. `name` and
      `edition` are the comma fields of that string, or null. */
  datatype Blueprint = Blueprint(
    blueprint: BlueprintId,
    name: Option<string>,
    edition: Option<string>,
    tokenAddress: string,
    tokenId: string)

  /** An asset, keyed by `id == token_address + "-" + token_id`. */
  datatype Asset = Asset(
    id: string,
    tokenAddress: string,
    tokenId: string,
    user: string,
    status: Option<string>,
    uri: Option<string>,
    name: string,
    description: Option<string>,
    imageUrl: Option<string>,
    metadata: Option<Dict>,
    collection: Option<Dict>,
    createdAt: string,
    updatedAt: string,
    blueprint: Option<BlueprintId>,
    mintAddress: Option<string>,
    firstNonMintAddress: Option<string>,
    numTransfers: Option<int>)

  /** A transfer of an asset (`asset` is the asset's key), keyed by its
      transaction id. `user` is the sender. */
  datatype Transfer = Transfer(
    transactionId: int,
    receiver: string,
    status: string,
    timestamp: string,
    user: string,
    asset: string)

  /** `bp` is what the asset's blueprint relation resolves to. */
  predicate ResolvesBlueprint(a: Asset, bp: Option<Blueprint>)
  {
    match bp
    case None => a.blueprint.None?
    case Some(b) => a.blueprint == Some(b.blueprint)
  }

  const BlueprintDataKeys: set<string> := {"blueprint", "blueprint_name", "blueprint_edition"}

  /** `get_blueprint_data`: the three blueprint columns of a row; all null when
      there is no blueprint (the attribute access on None raises and is caught). */
  function GetBlueprintData(bp: Option<Blueprint>): (d: Dict)
    ensures d.Keys == BlueprintDataKeys
    ensures bp.None? ==> forall k :: k in d ==> d[k] == JNull
    ensures bp.Some? ==>
      && d["blueprint"] == OptStr(bp.value.blueprint)
      && d["blueprint_name"] == OptStr(bp.value.name)
      && d["blueprint_edition"] == OptStr(bp.value.edition)
  {
    match bp
    case None =>
      map["blueprint" := JNull, "blueprint_name" := JNull, "blueprint_edition" := JNull]
    case Some(b) =>
      map["blueprint" := OptStr(b.blueprint),
          "blueprint_name" := OptStr(b.name),
          "blueprint_edition" := OptStr(b.edition)]
  }

  /** The 18 fixed columns of an asset row. */
  const AssetFixedKeys: set<string> := {
    "id", "token_address", "token_id", "user", "status", "uri", "name",
    "description", "image_url", "collection", "created_at", "updated_at",
    "blueprint", "blueprint_name", "blueprint_edition",
    "mint_address", "first_non_mint_address", "num_transfers"}

  /** Why `Asset.to_dict` raises: `collection.get` on a null collection
      (AttributeError) or `dict | None` on a null metadata (TypeError). */
  datatype ProjectionError = NullCollection | NullMetadata

  /** The fixed part of an asset row, before the metadata is merged in. */
  function AssetColumns(a: Asset, collection: Dict, bp: Option<Blueprint>): (d: Dict)
    ensures d.Keys == AssetFixedKeys
  {
    var bd := GetBlueprintData(bp);
    map[
      "id" := JStr(a.id),
      "token_address" := JStr(a.tokenAddress),
      "token_id" := JStr(a.tokenId),
      "user" := JStr(a.user),
      "status" := OptStr(a.status),
      "uri" := OptStr(a.uri),
      "name" := JStr(a.name),
      "description" := OptStr(a.description),
      "image_url" := OptStr(a.imageUrl),
      "collection" := if "name" in collection then collection["name"] else JNull,
      "created_at" := JStr(a.createdAt),
      "updated_at" := JStr(a.updatedAt),
      "blueprint" := bd["blueprint"],
      "blueprint_name" := bd["blueprint_name"],
      "blueprint_edition" := bd["blueprint_edition"],
      "mint_address" := OptStr(a.mintAddress),
      "first_non_mint_address" := OptStr(a.firstNonMintAddress),
      "num_transfers" := OptInt(a.numTransfers)]
  }

  /** `Asset.to_dict`: the fixed columns merged with the metadata, the
      metadata winning on a shared key (the right operand of `|`). */
  function AssetToDict(a: Asset, bp: Option<Blueprint>): (r: Result<Dict, ProjectionError>)
    requires ResolvesBlueprint(a, bp)
    ensures r.Err? <==> a.collection.None? || a.metadata.None?
    ensures a.collection.None? ==> r == Err(NullCollection)
    ensures a.collection.Some? && a.metadata.None? ==> r == Err(NullMetadata)
    ensures r.Ok? ==> r.value.Keys == AssetFixedKeys + a.metadata.value.Keys
    ensures r.Ok? ==> forall k :: k in a.metadata.value ==> r.value[k] == a.metadata.value[k]
    ensures r.Ok? ==> forall k :: k in AssetFixedKeys && k !in a.metadata.value ==>
      r.value[k] == AssetColumns(a, a.collection.value, bp)[k]
  {
    match a.collection
    case None => Err(NullCollection)
    case Some(c) =>
      match a.metadata
      case None => Err(NullMetadata)
      case Some(m) => Ok(AssetColumns(a, c, bp) + m)
  }

  /** Unless the metadata overrides them, an asset row carries the three
      provenance fields verbatim. */
  lemma AssetToDictProvenance(a: Asset, bp: Option<Blueprint>)
    requires ResolvesBlueprint(a, bp)
    requires a.collection.Some? && a.metadata.Some?
    ensures var d := AssetToDict(a, bp).value;
            var m := a.metadata.value;
            && ("mint_address" !in m ==> d["mint_address"] == OptStr(a.mintAddress))
            && ("first_non_mint_address" !in m ==>
                  d["first_non_mint_address"] == OptStr(a.firstNonMintAddress))
            && ("num_transfers" !in m ==> d["num_transfers"] == OptInt(a.numTransfers))
  {
    assert "mint_address" in AssetFixedKeys && "first_non_mint_address" in AssetFixedKeys;
    assert "num_transfers" in AssetFixedKeys;
  }

  /** Unless the metadata overrides it, the `collection` column is the
      collection mapping's "name" entry, or null when it has none. */
  lemma AssetToDictCollection(a: Asset, bp: Option<Blueprint>)
    requires ResolvesBlueprint(a, bp)
    requires a.collection.Some? && a.metadata.Some?
    requires "collection" !in a.metadata.value
    ensures var d := AssetToDict(a, bp).value;
            var c := a.collection.value;
            && ("name" in c ==> d["collection"] == c["name"])
            && ("name" !in c ==> d["collection"] == JNull)
  {
    var cols := AssetColumns(a, a.collection.value, bp);
    assert cols["collection"] == if "name" in a.collection.value then a.collection.value["name"] else JNull;
    assert AssetToDict(a, bp).value == cols + a.metadata.value;
  }

  /** Unless the metadata overrides them, the blueprint columns of an asset
      row are the blueprint projection: all null for an asset without one. */
  lemma AssetToDictBlueprint(a: Asset, bp: Option<Blueprint>)
    requires ResolvesBlueprint(a, bp)
    requires a.collection.Some? && a.metadata.Some?
    requires a.metadata.value.Keys !! BlueprintDataKeys
    ensures var d := AssetToDict(a, bp).value;
            forall k :: k in BlueprintDataKeys ==> d[k] == GetBlueprintData(bp)[k]
  {
    var cols := AssetColumns(a, a.collection.value, bp);
    var bd := GetBlueprintData(bp);
    assert "blueprint" in AssetFixedKeys && "blueprint_name" in AssetFixedKeys;
    assert "blueprint_edition" in AssetFixedKeys;
    assert cols["blueprint"] == bd["blueprint"];
    assert cols["blueprint_name"] == bd["blueprint_name"];
    assert cols["blueprint_edition"] == bd["blueprint_edition"];
  }

  const TransferKeys: set<string> := {
    "receiver", "status", "timestamp", "transaction_id", "user",
    "asset_token_address", "asset_token_id",
    "asset_blueprint", "asset_blueprint_name", "asset_blueprint_edition"}

  /** `Transfer.to_dict`, given the asset the transfer refers to and that
      asset's blueprint. */
  function TransferToDict(t: Transfer, a: Asset, bp: Option<Blueprint>): (d: Dict)
    requires a.id == t.asset && ResolvesBlueprint(a, bp)
    ensures d.Keys == TransferKeys
    ensures d["receiver"] == JStr(t.receiver) && d["user"] == JStr(t.user)
    ensures d["status"] == JStr(t.status) && d["timestamp"] == JStr(t.timestamp)
    ensures d["transaction_id"] == JInt(t.transactionId)
    ensures d["asset_token_address"] == JStr(a.tokenAddress)
    ensures d["asset_token_id"] == JStr(a.tokenId)
    ensures bp.None? ==>
      d["asset_blueprint"] == JNull && d["asset_blueprint_name"] == JNull
      && d["asset_blueprint_edition"] == JNull
    ensures bp.Some? ==>
      d["asset_blueprint"] == OptStr(bp.value.blueprint)
      && d["asset_blueprint_name"] == OptStr(bp.value.name)
      && d["asset_blueprint_edition"] == OptStr(bp.value.edition)
  {
    var bd := GetBlueprintData(bp);
    map[
      "receiver" := JStr(t.receiver),
      "status" := JStr(t.status),
      "timestamp" := JStr(t.timestamp),
      "transaction_id" := JInt(t.transactionId),
      "user" := JStr(t.user),
      "asset_token_address" := JStr(a.tokenAddress),
      "asset_token_id" := JStr(a.tokenId),
      "asset_blueprint" := bd["blueprint"],
      "asset_blueprint_name" := bd["blueprint_name"],
      "asset_blueprint_edition" := bd["blueprint_edition"]]
  }
}
