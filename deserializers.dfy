/** Turning an upstream asset body into a stored asset: the asset table is
    insert-once, keyed by `token_address + "-" + token_id`. */
module Deserializers {
  import opened Common
  import opened Models
  import Store

  /** The fields of an upstream asset body that `create_asset` reads. */
  datatype AssetDict = AssetDict(
    tokenAddress: string,
    tokenId: string,
    user: string,
    status: Option<string>,
    uri: Option<string>,
    name: string,
    description: Option<string>,
    imageUrl: Option<string>,
    metadata: Option<Dict>,
    collection: Option<Dict>,
    createdAt: string,
    updatedAt: string)

  /** The natural key of an asset. */
  function AssetKey(tokenAddress: string, tokenId: string): (id: string)
    ensures |id| == |tokenAddress| + 1 + |tokenId|
  {
    tokenAddress + "-" + tokenId
  }

  /** The key is the address, a dash, then the token id. */
  lemma AssetKeyParts(tokenAddress: string, tokenId: string)
    ensures var id := AssetKey(tokenAddress, tokenId);
            && |id| == |tokenAddress| + 1 + |tokenId|
            && id[..|tokenAddress|] == tokenAddress
            && id[|tokenAddress|] == '-'
            && id[|tokenAddress| + 1..] == tokenId
  {
  }

  function DictKey(d: AssetDict): string
  {
    AssetKey(d.tokenAddress, d.tokenId)
  }

  /** The record `create_asset` inserts for a key it has not seen: every
      column copied from the body (a null metadata stays null), no blueprint
      and no provenance yet. */
  function NewAsset(d: AssetDict): (a: Asset)
    ensures a.id == DictKey(d)
    ensures a.tokenAddress == d.tokenAddress && a.tokenId == d.tokenId
    ensures a.user == d.user && a.status == d.status && a.uri == d.uri
    ensures a.name == d.name && a.description == d.description && a.imageUrl == d.imageUrl
    ensures a.metadata == d.metadata && a.collection == d.collection
    ensures a.createdAt == d.createdAt && a.updatedAt == d.updatedAt
    ensures a.blueprint.None? && a.mintAddress.None?
    ensures a.firstNonMintAddress.None? && a.numTransfers.None?
  {
    Asset(DictKey(d), d.tokenAddress, d.tokenId, d.user, d.status, d.uri, d.name,
          d.description, d.imageUrl, d.metadata, d.collection, d.createdAt, d.updatedAt,
          None, None, None, None)
  }

  function AssetId(a: Asset): string
  {
    a.id
  }

  /** Every stored asset sits under its own id: `(token_address, token_id)`
      determines at most one asset. */
  ghost predicate KeyedById(rows: map<string, Asset>)
  {
    Store.KeyedBy(rows, AssetId)
  }

  /** `create_asset`: the stored asset for the body's key, inserting one
      built from the body only when the key is new. */
  method CreateAsset(assets: Store.Table<string, Asset>, d: AssetDict) returns (a: Asset)
    modifies assets
    ensures var u := Store.InsertOnce(old(assets.rows), DictKey(d), NewAsset(d));
            assets.rows == u.table && a == u.record
    ensures KeyedById(old(assets.rows)) ==> KeyedById(assets.rows) && a.id == DictKey(d)
  {
    var created;
    a, created := assets.GetOrCreate(DictKey(d), NewAsset(d));
  }

  /** A second `create_asset` with the same key leaves the table as the first
      left it and returns the first call's asset, whatever its body holds. */
  lemma CreateAssetIdempotent(rows: map<string, Asset>, first: AssetDict, second: AssetDict)
    requires DictKey(first) == DictKey(second)
    ensures var u1 := Store.InsertOnce(rows, DictKey(first), NewAsset(first));
            var u2 := Store.InsertOnce(u1.table, DictKey(second), NewAsset(second));
            u2.table == u1.table && u2.record == u1.record
    ensures var u1 := Store.InsertOnce(rows, DictKey(first), NewAsset(first));
            DictKey(first) !in rows ==> u1.record == NewAsset(first)
  {
  }

  /** The `get_or_create` calls that `create_asset` makes for a list of bodies. */
  function AssetEntries(ds: seq<AssetDict>): (es: seq<(string, Asset)>)
    ensures |es| == |ds|
    ensures forall i :: 0 <= i < |ds| ==> es[i] == (DictKey(ds[i]), NewAsset(ds[i]))
  {
    seq(|ds|, i requires 0 <= i < |ds| => (DictKey(ds[i]), NewAsset(ds[i])))
  }

  /** `create_asset` applied to each body in turn, as the pagination loop does. */
  function CreateAssets(rows: map<string, Asset>, ds: seq<AssetDict>): (b: Store.Batch<string, Asset>)
    ensures |b.records| == |ds|
  {
    Store.InsertAll(rows, AssetEntries(ds))
  }

  /** The assets returned for a list of bodies: one per body, each the stored
      asset of the body's key; earlier assets are left as they were; the
      first body of a new key decides that asset; a keyed table stays keyed. */
  lemma CreateAssetsStored(rows: map<string, Asset>, ds: seq<AssetDict>)
    requires KeyedById(rows)
    ensures var b := CreateAssets(rows, ds);
            && KeyedById(b.table)
            && |b.records| == |ds|
            && (forall k :: k in rows ==> k in b.table && b.table[k] == rows[k])
            && (forall i :: 0 <= i < |ds| ==>
                  && b.records[i].id == DictKey(ds[i])
                  && DictKey(ds[i]) in b.table && b.table[DictKey(ds[i])] == b.records[i])
  {
    var es := AssetEntries(ds);
    Store.InsertAllKeys(rows, es);
    Store.InsertAllStored(rows, es);
    Store.InsertAllKeyed(rows, es, AssetId);
  }

  /** The asset returned for the first body of a key the table did not hold
      is the one built from that body. */
  lemma CreateAssetsFirstWins(rows: map<string, Asset>, ds: seq<AssetDict>, i: nat)
    requires i < |ds| && DictKey(ds[i]) !in rows
    requires forall j :: 0 <= j < i ==> DictKey(ds[j]) != DictKey(ds[i])
    ensures CreateAssets(rows, ds).records[i] == NewAsset(ds[i])
  {
    Store.InsertAllFirstWins(rows, AssetEntries(ds), i);
  }

  /** Ingesting the same bodies again changes nothing. */
  lemma CreateAssetsRepeat(rows: map<string, Asset>, ds: seq<AssetDict>)
    ensures var b := CreateAssets(rows, ds);
            CreateAssets(b.table, ds) == b
  {
    Store.InsertAllRepeat(rows, AssetEntries(ds));
  }
}
