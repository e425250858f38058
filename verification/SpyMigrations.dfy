/** Schema upgrades: which migrations run, and what the text index and the cached token counts are
    afterwards. */
module SpyMigrations {
  import opened Bytes
  import opened SpyTables
  import opened SpyInvariants

  datatype Table = CoreTables | TokenCount | StreamChunkCapture

  /** A cached count; `caption` is its label column. */
  datatype TokenRow = TokenRow(call: CallId, cacheKey: string, caption: Option<string>, rest: string)

  type TokenTable = map<string, TokenRow>

  datatype Database = Database(versions: set<nat>, tables: set<Table>, triggers: bool, t: Indexed, tokens: TokenTable)

  const LATEST: nat := 5

  // ----- the migrations -----

  /** INSERT INTO the index for the blocks with text that have no entry. */
  function Backfill(t: Indexed): Indexed {
    t.(fts := map k | k in t.blocks.Keys + t.fts.Keys && (k in t.fts || t.blocks[k].text.Some?)
                :: if k in t.fts then t.fts[k] else [t.blocks[k].text.value])
  }

  function Unlabelled(tokens: TokenTable): TokenTable {
    map id | id in tokens :: tokens[id].(caption := None)
  }

  function Migrate(db: Database, version: nat): Database
    requires 1 <= version <= LATEST
  {
    var done := db.(versions := db.versions + {version});
    match version
    case 1 => done.(tables := db.tables + {CoreTables})
    case 2 => done.(triggers := true, t := Backfill(db.t))
    case 3 => done.(tables := db.tables + {TokenCount})
    case 4 => done.(tokens := Unlabelled(db.tokens))
    case _ => done.(tables := db.tables + {StreamChunkCapture})
  }

  /** The missing migrations up to `version`, in order. */
  function Upgraded(db: Database, version: nat): Database
    requires version <= LATEST
  {
    if version == 0 then db
    else
      var before := Upgraded(db, version - 1);
      if version in db.versions then before else Migrate(before, version)
  }

  /** Cache keys are UNIQUE. */
  ghost predicate UniqueKeys(tokens: TokenTable) {
    forall i, j :: i in tokens && j in tokens && tokens[i].cacheKey == tokens[j].cacheKey ==> i == j
  }

  class SpyDatabase {
    var versions: set<nat>
    var tables: set<Table>
    var triggers: bool
    var blocks: map<BlockKey, Block>
    var fts: map<BlockKey, seq<string>>
    var tokens: TokenTable

    function State(): Database
      reads this
    {
      Database(versions, tables, triggers, Indexed(blocks, fts), tokens)
    }

    /** The INSERT ... SELECT of version 2, block by block. */
    method BackfillIndex()
      modifies this`fts
      ensures Indexed(blocks, fts) == Backfill(Indexed(blocks, old(fts)))
    {
      var left := blocks.Keys;
      while left != {}
        invariant left <= blocks.Keys
        invariant forall k :: k in fts <==> k in old(fts) || (k in blocks && k !in left && blocks[k].text.Some?)
        invariant forall k :: k in fts ==> fts[k] == if k in old(fts) then old(fts)[k] else [blocks[k].text.value]
        decreases |left|
      {
        var k :| k in left;
        left := left - {k};
        if blocks[k].text.Some? && k !in fts {
          fts := fts[k := [blocks[k].text.value]];
        }
      }
    }

    /** The copy of version 4: INSERT OR REPLACE drops any row with the same id or the same key. */
    method RebuildTokenCounts()
      requires UniqueKeys(tokens)
      modifies this`tokens
      ensures tokens == Unlabelled(old(tokens))
    {
      hide UniqueKeys; hide Unlabelled;
      var next: TokenTable := map[];
      var left := tokens.Keys;
      while left != {}
        invariant left <= tokens.Keys && tokens == old(tokens)
        invariant next.Keys == tokens.Keys - left && Copied(tokens, next)
        decreases |left|
      {
        var id :| id in left;
        left := left - {id};
        var row := tokens[id].(caption := None);
        var clashing := set i | i in next && (i == id || next[i].cacheKey == row.cacheKey);
        NoClash(tokens, next, id);
        assert clashing == {};
        next := (next - clashing)[id := row];
      }
      AllCopied(tokens, next);
      tokens := next;
    }

    /** `applySpyMigrations`: each migration not yet recorded runs in its own transaction. */
    method ApplySpyMigrations()
      requires UniqueKeys(tokens)
      modifies this
      ensures State() == Upgraded(old(State()), LATEST)
    {
      var applied := versions;
      var version: nat := 1;
      while version <= LATEST
        invariant 1 <= version <= LATEST + 1 && UniqueKeys(tokens)
        invariant State() == Upgraded(old(State()), version - 1)
      {
        if version !in applied {
          versions := versions + {version};
          match version {
            case 1 => tables := tables + {CoreTables};
            case 2 =>
              triggers := true;
              BackfillIndex();
            case 3 => tables := tables + {TokenCount};
            case 4 => RebuildTokenCounts();
            case _ => tables := tables + {StreamChunkCapture};
          }
        }
        version := version + 1;
      }
    }
  }

  ghost predicate Copied(tokens: TokenTable, next: TokenTable) {
    forall i :: i in next ==> i in tokens && next[i] == tokens[i].(caption := None)
  }

  lemma {:induction false} NoClash(tokens: TokenTable, next: TokenTable, id: string)
    requires UniqueKeys(tokens) && Copied(tokens, next) && id in tokens && id !in next
    ensures forall i :: i in next ==> i != id && next[i].cacheKey != tokens[id].cacheKey
  {}

  lemma {:induction false} AllCopied(tokens: TokenTable, next: TokenTable)
    requires Copied(tokens, next) && next.Keys == tokens.Keys
    ensures next == Unlabelled(tokens)
  {}

  // ----- what an upgrade achieves -----

  function UpTo(version: nat): set<nat> {
    if version == 0 then {} else UpTo(version - 1) + {version}
  }

  lemma {:induction false} UpgradeRecords(db: Database, version: nat)
    requires version <= LATEST
    ensures Upgraded(db, version).versions == db.versions + UpTo(version)
    ensures Upgraded(db, version).t == if version >= 2 && 2 !in db.versions then Backfill(db.t) else db.t
  {
    if version > 0 { UpgradeRecords(db, version - 1); }
  }

  lemma {:induction false} NothingMissing(db: Database, version: nat)
    requires version <= LATEST && UpTo(version) <= db.versions
    ensures Upgraded(db, version) == db
  {
    if version > 0 { NothingMissing(db, version - 1); }
  }

  /** Opening the database again changes nothing. */
  lemma {:induction false} UpgradeIsIdempotent(db: Database)
    ensures Upgraded(Upgraded(db, LATEST), LATEST) == Upgraded(db, LATEST)
  {
    hide Upgraded;
    UpgradeRecords(db, LATEST);
    NothingMissing(Upgraded(db, LATEST), LATEST);
  }

  /** Every entry of the index is the text of its block, once. */
  ghost predicate EntriesRight(t: Indexed) {
    forall k :: k in t.fts ==> k in t.blocks && t.blocks[k].text.Some? && t.fts[k] == [t.blocks[k].text.value]
  }

  lemma {:induction false} BackfillAgreesIff(t: Indexed)
    ensures IndexAgrees(Backfill(t)) <==> EntriesRight(t)
  {
    var t' := Backfill(t);
    assert t'.blocks == t.blocks;
    assert forall k :: k in t.fts ==> k in t'.fts && t'.fts[k] == t.fts[k];
    if IndexAgrees(t') {
      assert EntriesRight(t);
    }
  }

  /** After an upgrade the index agrees with the blocks exactly when what was indexed before was
      right; a wrong or stale entry is never repaired, and once version 2 is in place nothing is. */
  lemma {:induction false} UpgradeAgreesIff(db: Database)
    ensures IndexAgrees(Upgraded(db, LATEST).t) <==> if 2 in db.versions then IndexAgrees(db.t) else EntriesRight(db.t)
  {
    hide Upgraded; hide IndexAgrees; hide EntriesRight; hide Backfill;
    UpgradeRecords(db, LATEST);
    BackfillAgreesIff(db.t);
  }

  /** So upgrading a version-1 database whose index is empty indexes exactly its blocks with text. */
  lemma {:induction false} EmptyIndexUpgrades(db: Database)
    requires 2 !in db.versions && db.t.fts == map[]
    ensures IndexAgrees(Upgraded(db, LATEST).t) && Upgraded(db, LATEST).t.blocks == db.t.blocks
  {
    UpgradeAgreesIff(db);
    hide Upgraded;
    UpgradeRecords(db, LATEST);
  }

  /** No cached count is lost, and only labels change. */
  lemma {:induction false} CountsSurvive(db: Database, version: nat, id: string)
    requires version <= LATEST
    ensures id in Upgraded(db, version).tokens <==> id in db.tokens
    ensures id in db.tokens ==> Upgraded(db, version).tokens[id].(caption := None) == db.tokens[id].(caption := None)
  {
    if version > 0 { CountsSurvive(db, version - 1, id); }
  }

  /** What an upgrade leaves, whatever was there: every version is recorded, and each migration that was
      missing has done its work once, while one recorded already is not run again. */
  lemma {:induction false} UpgradeOutcome(db: Database)
    ensures var db' := Upgraded(db, LATEST);
      && db'.versions == db.versions + {1, 2, 3, 4, 5}
      && db'.triggers == (db.triggers || 2 !in db.versions)
      && db'.t.blocks == db.t.blocks
      && (forall t :: t in db'.tables <==>
            || t in db.tables || (t == CoreTables && 1 !in db.versions) || (t == TokenCount && 3 !in db.versions)
            || (t == StreamChunkCapture && 5 !in db.versions))
      && db'.tokens.Keys == db.tokens.Keys
      && forall id :: id in db.tokens ==>
           && db'.tokens[id].caption == (if 4 in db.versions then db.tokens[id].caption else None)
           && db'.tokens[id].call == db.tokens[id].call && db'.tokens[id].cacheKey == db.tokens[id].cacheKey
           && db'.tokens[id].rest == db.tokens[id].rest
  {
    hide Backfill;
    UpgradeRecords(db, LATEST);
    assert UpTo(LATEST) == {1, 2, 3, 4, 5};
    UpgradeSteps(db, LATEST);
  }

  lemma {:induction false} UpgradeSteps(db: Database, version: nat)
    requires version <= LATEST
    ensures Upgraded(db, version).triggers == (db.triggers || (version >= 2 && 2 !in db.versions))
    ensures Upgraded(db, version).tables == db.tables
      + (if version < 1 || 1 in db.versions then {} else {CoreTables})
      + (if version < 3 || 3 in db.versions then {} else {TokenCount})
      + (if version < 5 || 5 in db.versions then {} else {StreamChunkCapture})
    ensures Upgraded(db, version).tokens
      == if version < 4 || 4 in db.versions then db.tokens else Unlabelled(db.tokens)
    ensures Upgraded(db, version).t.blocks == db.t.blocks
  {
    hide Unlabelled;
    if version > 0 { UpgradeSteps(db, version - 1); }
  }
}
