// The circular audit log against the history of everything logged.
module AuditRing {
  import opened TsnTypes
  import opened Orchestration

  const AUDIT_LOG_SIZE: int := 64

  function Kept(n: nat): nat {
    if n < AUDIT_LOG_SIZE then n else AUDIT_LOG_SIZE
  }

  // The ring holds the last entries of the history, each at its position
  // modulo the size, the head is the position of the next one.
  predicate RingOk(ring: seq<AuditEntry>, head: nat, count: nat, history: seq<AuditEntry>) {
    && |ring| == AUDIT_LOG_SIZE
    && head == |history| % AUDIT_LOG_SIZE
    && count == Kept(|history|)
    && forall k :: |history| - count <= k < |history| ==> ring[k % AUDIT_LOG_SIZE] == history[k]
  }

  lemma RingPush(ring: seq<AuditEntry>, head: nat, count: nat, history: seq<AuditEntry>, e: AuditEntry)
    requires RingOk(ring, head, count, history)
    ensures RingOk(ring[head := e], (head + 1) % AUDIT_LOG_SIZE,
                   if count < AUDIT_LOG_SIZE then count + 1 else count, history + [e])
  {
    var n, ring' := |history|, ring[head := e];
    forall k | n + 1 - Kept(n + 1) <= k < n + 1
      ensures ring'[k % AUDIT_LOG_SIZE] == (history + [e])[k]
    {
      if k < n { assert k % AUDIT_LOG_SIZE != n % AUDIT_LOG_SIZE; }
    }
  }

  // The entries a reader finds, oldest first, when it walks the ring from
  // count places behind the head.
  function Read(ring: seq<AuditEntry>, head: nat, count: nat): (r: seq<AuditEntry>)
    requires |ring| == AUDIT_LOG_SIZE && count <= AUDIT_LOG_SIZE
    ensures |r| == count
    ensures forall i :: 0 <= i < count ==> r[i] == ring[(head + (i - count)) % AUDIT_LOG_SIZE]
  {
    if count == 0 then []
    else [ring[(head - count) % AUDIT_LOG_SIZE]] + Read(ring, head, count - 1)
  }

  lemma SamePlace(n: nat, x: int)
    ensures (n % AUDIT_LOG_SIZE + x) % AUDIT_LOG_SIZE == (n + x) % AUDIT_LOG_SIZE
  {
  }

  // Reading the ring gives exactly the last min(n, 64) entries ever logged.
  lemma RingIsRecentHistory(ring: seq<AuditEntry>, head: nat, count: nat, history: seq<AuditEntry>)
    requires RingOk(ring, head, count, history)
    ensures Read(ring, head, count) == history[if |history| < 64 then 0 else |history| - 64..]
  {
    hide Read;
    var r, n := Read(ring, head, count), |history|;
    forall i | 0 <= i < count ensures r[i] == history[n - count + i] {
      SamePlace(n, i - count);
    }
  }
}
