/**
 The per-game, per-peer bookkeeping row (internal/store/peers.go): the lineage of the last sync, the
 merge-base both sides agreed on, and the state last handed to the peer.
 */
module PeerStore {

  datatype Row = Row(files: set<string>, dirs: set<string>, agreed: string, pushed: string) {
    /** Recording a convergence settles any push still outstanding. */
    function WithAgreed(hash: string): Row {
      this.(agreed := hash, pushed := "")
    }

    function WithPushed(hash: string): Row {
      this.(pushed := hash)
    }

    function WithLineage(files: set<string>, dirs: set<string>): Row {
      this.(files := files, dirs := dirs)
    }
  }

  /** What the INSERT half of each upsert starts from, and what a missing row reads as. */
  const NoRow := Row({}, {}, "", "")

  datatype Key = Key(gameId: string, peerId: string)

  class SyncStateTable {
    var rows: map<Key, Row>
    var peers: set<string>

    constructor ()
      ensures rows == map[] && peers == {}
    {
      rows, peers := map[], {};
    }

    function RowOf(key: Key): Row
      reads this
    {
      if key in rows then rows[key] else NoRow
    }

    method GetAgreedHash(key: Key) returns (hash: string)
      ensures hash == RowOf(key).agreed
    {
      hash := if key in rows then rows[key].agreed else "";
    }

    method GetPushedHash(key: Key) returns (hash: string)
      ensures hash == RowOf(key).pushed
    {
      hash := if key in rows then rows[key].pushed else "";
    }

    method GetSyncState(key: Key) returns (files: set<string>, dirs: set<string>)
      ensures files == RowOf(key).files && dirs == RowOf(key).dirs
    {
      if key !in rows {
        return {}, {};
      }
      return rows[key].files, rows[key].dirs;
    }

    method SetAgreedHash(key: Key, hash: string)
      modifies this`rows
      ensures rows == old(rows)[key := old(RowOf(key)).WithAgreed(hash)]
    {
      if key in rows {
        rows := rows[key := rows[key].(agreed := hash, pushed := "")];
      } else {
        rows := rows[key := Row({}, {}, hash, "")];
      }
    }

    method SetPushedHash(key: Key, hash: string)
      modifies this`rows
      ensures rows == old(rows)[key := old(RowOf(key)).WithPushed(hash)]
    {
      if key in rows {
        rows := rows[key := rows[key].(pushed := hash)];
      } else {
        rows := rows[key := Row({}, {}, "", hash)];
      }
    }

    method SetSyncState(key: Key, files: set<string>, dirs: set<string>)
      modifies this`rows
      ensures rows == old(rows)[key := old(RowOf(key)).WithLineage(files, dirs)]
    {
      if key in rows {
        rows := rows[key := rows[key].(files := files, dirs := dirs)];
      } else {
        rows := rows[key := Row(files, dirs, "", "")];
      }
    }

    /** One transaction: an unknown peer rolls the row deletions back. */
    method UnpairPeer(peerId: string) returns (ok: bool)
      modifies this
      ensures ok <==> peerId in old(peers)
      ensures peers == old(peers) - {peerId}
      ensures rows == if ok then map k | k in old(rows) && k.peerId != peerId :: old(rows)[k] else old(rows)
    {
      var kept := map k | k in rows && k.peerId != peerId :: rows[k];
      ok := peerId in peers;
      if ok {
        rows, peers := kept, peers - {peerId};
      }
    }
  }

  // ----- What a push record on file means, over any history of one row

  datatype Write = Agree(hash: string) | Hand(hash: string) | Lineage(files: set<string>, dirs: set<string>)

  function After(row: Row, history: seq<Write>): Row {
    if history == [] then row
    else
      var before := After(row, history[..|history| - 1]);
      match history[|history| - 1]
      case Agree(hash) => before.WithAgreed(hash)
      case Hand(hash) => before.WithPushed(hash)
      case Lineage(files, dirs) => before.WithLineage(files, dirs)
  }

  /** The last hash handed over, with no convergence recorded since. */
  ghost predicate Outstanding(history: seq<Write>, hash: string) {
    exists i :: 0 <= i < |history| && history[i] == Hand(hash) &&
      forall j :: i < j < |history| ==> history[j].Lineage?
  }

  /**
   A push record on file is always one whose push is still outstanding, and every outstanding push
   is on file: no later agreement can be dragged back onto an older push.
   */
  lemma {:induction false} PushRecordIsOutstanding(history: seq<Write>, hash: string)
    requires hash != ""
    ensures After(NoRow, history).pushed == hash <==> Outstanding(history, hash)
  {
    if history != [] {
      var last := |history| - 1;
      var earlier := history[..last];
      PushRecordIsOutstanding(earlier, hash);
      if history[last].Lineage? {
        if Outstanding(earlier, hash) {
          var i :| 0 <= i < last && earlier[i] == Hand(hash) && forall j :: i < j < last ==> earlier[j].Lineage?;
          assert history[i] == Hand(hash);
          assert forall j :: i < j < |history| ==> history[j].Lineage?;
        }
        if Outstanding(history, hash) {
          var i :| 0 <= i < |history| && history[i] == Hand(hash) && forall j :: i < j < |history| ==>
              history[j].Lineage?;
          assert earlier[i] == Hand(hash);
          assert forall j :: i < j < last ==> earlier[j] == history[j];
        }
      } else {
        assert history[last].Hand? && history[last].hash == hash ==> Outstanding(history, hash);
        if Outstanding(history, hash) {
          var i :| 0 <= i < |history| && history[i] == Hand(hash) && forall j :: i < j < |history| ==>
              history[j].Lineage?;
          assert i == last;
        }
      }
    }
  }
}
