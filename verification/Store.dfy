/** internal/store/store.go: the peers bucket, as records under a codec; every update is one transaction. */
module PeerStore {
  import opened Options
  import opened Host

  /** How records are written; a record that does not read is skipped. */
  datatype Codec = Codec(encode: PeerInfo -> string, decode: string -> Option<PeerInfo>)

  ghost predicate Faithful(c: Codec) {
    forall p :: c.decode(c.encode(p)) == Some(p)
  }

  /** The peers a bucket holds. */
  function Peers(c: Codec, bucket: map<string, string>): map<string, PeerInfo> {
    map k | k in bucket && c.decode(bucket[k]).Some? :: c.decode(bucket[k]).value
  }

  function Encoded(c: Codec, peers: map<string, PeerInfo>): map<string, string> {
    map k | k in peers :: c.encode(peers[k])
  }

  /** The AS numbers of a node's peers. */
  function Tracked(peers: map<string, PeerInfo>): set<int> {
    set k | k in peers :: peers[k].asn
  }

  lemma EncodedReads(c: Codec, peers: map<string, PeerInfo>)
    requires Faithful(c)
    ensures Peers(c, Encoded(c, peers)) == peers
  {
    forall k | k in peers ensures c.decode(Encoded(c, peers)[k]) == Some(peers[k]) {
      assert c.decode(c.encode(peers[k])) == Some(peers[k]);
    }
  }

  class Store {
    const codec: Codec
    var bucket: map<string, string>

    constructor (codec: Codec)
      ensures this.codec == codec && bucket == map[]
    {
      this.codec := codec;
      bucket := map[];
    }

    function Contents(): map<string, PeerInfo>
      reads this
    {
      Peers(codec, bucket)
    }

    /** PutPeer; an empty key is refused, and `fault` makes the transaction fail. */
    method PutPeer(id: string, info: PeerInfo, fault: bool) returns (ok: bool)
      requires Faithful(codec)
      modifies this
      ensures ok <==> id != "" && !fault
      ensures Contents() == if ok then old(Contents())[id := info] else old(Contents())
    {
      if id == "" || fault {
        return false;
      }
      ghost var before := bucket;
      bucket := bucket[id := codec.encode(info)];
      assert codec.decode(bucket[id]) == Some(info);
      assert forall k :: k in before && k != id ==> bucket[k] == before[k];
      return true;
    }

    method GetPeer(id: string) returns (r: Option<PeerInfo>)
      ensures r == if id in Contents() then Some(Contents()[id]) else None
    {
      if id !in bucket {
        return None;
      }
      r := codec.decode(bucket[id]);
    }

    method DeletePeer(id: string, fault: bool) returns (ok: bool)
      modifies this
      ensures ok <==> !fault
      ensures Contents() == if ok then old(Contents()) - {id} else old(Contents())
    {
      if fault {
        return false;
      }
      bucket := bucket - {id};
      return true;
    }

    /** The transaction's deletions: all keys were collected first. */
    method DeleteAll(bucket: map<string, string>, budget: nat) returns (ok: bool, tx: map<string, string>)
      ensures ok <==> |bucket.Keys| <= budget
      ensures ok ==> tx == map[]
    {
      tx := bucket;
      var left, used := bucket.Keys, 0;
      while left != {}
        invariant left <= bucket.Keys && tx.Keys == left && used == |bucket.Keys| - |left| <= budget
        decreases |left|
      {
        if used == budget {
          return false, tx;
        }
        var k :| k in left;
        tx := tx - {k};
        left := left - {k};
        used := used + 1;
      }
      return true, tx;
    }

    /** The transaction's writes, into a bucket that has been emptied; an empty key is refused. */
    method PutAll(empty: map<string, string>, peers: map<string, PeerInfo>, budget: nat)
      returns (ok: bool, tx: map<string, string>)
      requires empty == map[]
      ensures ok <==> |peers.Keys| <= budget && "" !in peers
      ensures ok ==> tx == Encoded(codec, peers)
    {
      tx := empty;
      var left, used := peers.Keys, 0;
      while left != {}
        invariant left <= peers.Keys && used == |peers.Keys| - |left| <= budget && ("" in peers ==> "" in left)
        invariant tx.Keys == peers.Keys - left && forall k :: k in tx ==> tx[k] == codec.encode(peers[k])
        decreases |left|
      {
        var id :| id in left;
        if used == budget || id == "" {
          return false, tx;
        }
        tx := tx[id := codec.encode(peers[id])];
        left := left - {id};
        used := used + 1;
      }
      return true, tx;
    }

    /** ReplaceAll: `budget` operations of the transaction succeed and the next one fails, which gives it all up; the
        last operation is the commit. */
    method ReplaceAll(peers: map<string, PeerInfo>, budget: nat) returns (ok: bool)
      requires Faithful(codec)
      modifies this
      ensures ok <==> |old(bucket).Keys| + |peers.Keys| + 1 <= budget && "" !in peers
      ensures Contents() == if ok then peers else old(Contents())
    {
      var tx;
      ok, tx := DeleteAll(bucket, budget);
      if ok {
        ok, tx := PutAll(tx, peers, budget - |bucket.Keys|);
      }
      if ok && budget == |bucket.Keys| + |peers.Keys| {
        ok := false;
      }
      if ok {
        bucket := tx;
        EncodedReads(codec, peers);
      }
    }

    /** IsASNTracked: the walk stops at the first record with this AS number. */
    method IsASNTracked(asn: int) returns (found: bool)
      ensures found <==> asn in Tracked(Contents())
    {
      var left := bucket.Keys;
      while left != {}
        invariant left <= bucket.Keys
        invariant forall k :: k in Contents() && k !in left ==> Contents()[k].asn != asn
        decreases |left|
      {
        var k :| k in left;
        var info := codec.decode(bucket[k]);
        if info.Some? && info.value.asn == asn {
          assert k in Contents() && Contents()[k].asn == asn;
          return true;
        }
        left := left - {k};
      }
      return false;
    }
  }
}
