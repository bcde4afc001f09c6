/**
 * The single-row `credentials` table (main.py:117-119) with
 * `save_credentials` / `get_credentials` (main.py:175-189) and the pickle
 * pair `serialize_credentials` / `deseralize_credentials` (main.py:264-271).
 */
module Credentials {
  import opened Wrappers

  /** The provider's token bundle; the core never looks inside it. */
  datatype Credential = Credential(
    accessToken: string,
    tokenExpiry: int,
    tokenType: string,
    refreshToken: string,
    userId: int,
    clientId: string,
    consumerSecret: string)

  /** A stored `credentials_pkl` blob; its byte format is not modelled. */
  datatype Blob = Pickled(payload: Credential)

  function Serialize(c: Credential): Blob {
    Pickled(c)
  }

  function Deserialize(b: Blob): Credential {
    b.payload
  }

  /** The pickle pair is assumed to be a faithful round trip. */
  lemma DeserializeSerialize(c: Credential)
    ensures Deserialize(Serialize(c)) == c
  {
  }

  /** What `get_credentials` reads from the table: the first row, decoded, or nothing. */
  function FirstCredential(rows: seq<Blob>): (r: Option<Credential>)
    ensures r.None? <==> rows == []
  {
    if rows == [] then None else Some(Deserialize(rows[0]))
  }

  /** The table after `save_credentials`: every row deleted, then one inserted. */
  function Replaced(rows: seq<Blob>, c: Credential): (r: seq<Blob>)
    ensures |r| == 1
  {
    var emptied: seq<Blob> := [];
    emptied + [Serialize(c)]
  }

  /** Saving then loading yields the saved credential, whatever was stored before. */
  lemma SaveThenLoad(rows: seq<Blob>, c: Credential)
    ensures FirstCredential(Replaced(rows, c)) == Some(c)
  {
  }

  /** A second save replaces the first: only the latest credential is loaded. */
  lemma LatestSaveWins(rows: seq<Blob>, c1: Credential, c2: Credential)
    ensures Replaced(Replaced(rows, c1), c2) == Replaced(rows, c2)
    ensures FirstCredential(Replaced(Replaced(rows, c1), c2)) == Some(c2)
  {
  }

  /** The `credentials` table. */
  class CredentialTable {
    var rows: seq<Blob>

    /** At most one credential row exists. */
    ghost predicate Valid()
      reads this
    {
      |rows| <= 1
    }

    constructor ()
      ensures Valid() && rows == []
    {
      rows := [];
    }

    /** `save_credentials`: delete every row, then insert the serialised credential. */
    method Save(c: Credential)
      modifies this
      ensures Valid()
      ensures rows == Replaced(old(rows), c)
      ensures rows == [Serialize(c)]
    {
      rows := [];
      rows := rows + [Serialize(c)];
    }

    /** `get_credentials`: the first stored row, decoded, or nothing when the table is empty. */
    method Load() returns (r: Option<Credential>)
      ensures r == FirstCredential(rows)
      ensures Valid() && r.Some? ==> rows == [Serialize(r.value)]
    {
      if rows == [] {
        r := None;
      } else {
        r := Some(Deserialize(rows[0]));
      }
    }
  }

  /** A token refresh followed by the next start-up: the table is saved, then read back. */
  method SaveThenReload(t: CredentialTable, c: Credential) returns (r: Option<Credential>)
    modifies t
    ensures t.Valid() && t.rows == [Serialize(c)]
    ensures r == Some(c)
  {
    t.Save(c);
    r := t.Load();
  }
}
