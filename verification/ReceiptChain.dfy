/**
 The hash chain of audit receipts: the store prepends a receipt that carries the
 hash of its predecessor, the verifier walks the list from the newest one on.

 Hashing is a parameter: what the digest of a payload, a signature and a previous
 hash is.
 */
module ReceiptChain {
  import opened Wrappers

  datatype Receipt<P, S> = Receipt(payload: P, signature: S, previousHash: Option<string>, hash: Option<string>)

  type Hash<!P, !S> = (P, S, string) -> string

  /** `value || ''` */
  function OrEmpty(h: Option<string>): string {
    if h.Some? then h.value else ""
  }

  // ---------- appending ----------

  function HeadHash<P, S>(list: seq<Receipt<P, S>>): string {
    if list == [] then "" else OrEmpty(list[0].hash)
  }

  function Append<P, S>(hash: Hash<P, S>, list: seq<Receipt<P, S>>, payload: P, signature: S): seq<Receipt<P, S>> {
    var previous := HeadHash(list);
    [Receipt(payload, signature, Some(previous), Some(hash(payload, signature, previous)))] + list
  }

  /** The list that appending these payloads and signatures to `start` leads to, the oldest one last. */
  function BuildOn<P, S>(hash: Hash<P, S>, start: seq<Receipt<P, S>>, inputs: seq<(P, S)>): seq<Receipt<P, S>> {
    if inputs == [] then start else Append(hash, BuildOn(hash, start, inputs[1..]), inputs[0].0, inputs[0].1)
  }

  /** The same from nothing. */
  function Build<P, S>(hash: Hash<P, S>, inputs: seq<(P, S)>): seq<Receipt<P, S>> {
    BuildOn(hash, [], inputs)
  }

  class ReceiptStore<P, S> {
    var list: seq<Receipt<P, S>>

    /** The store starts from the list in its file: the seed receipts, or whatever was stored before. */
    constructor (stored: seq<Receipt<P, S>>)
      ensures list == stored
    {
      list := stored;
    }

    /** `addAuditReceipt` */
    method AddAuditReceipt(hash: Hash<P, S>, payload: P, signature: S)
      modifies this
      ensures list == Append(hash, old(list), payload, signature)
    {
      var previous := "";
      if |list| > 0 {
        previous := OrEmpty(list[0].hash);
      }
      var stored := Receipt(payload, signature, Some(previous), None);
      stored := stored.(hash := Some(hash(payload, signature, previous)));
      list := [stored] + list;
    }
  }

  // ---------- verifying ----------

  /** `verifyAuditChain` */
  method VerifyAuditChain<P, S>(hash: Hash<P, S>, receipts: seq<Receipt<P, S>>) returns (ok: bool)
    ensures ok <==> receipts == Build(hash, Inputs(receipts))
  {
    if receipts == [] {
      return true;
    }
    ChainMeansBuilt(hash, receipts);
    for i := 0 to |receipts|
      invariant forall k | 0 <= k < i :: Linked(hash, receipts, k)
    {
      var current := receipts[i];
      var calculated := hash(current.payload, current.signature, OrEmpty(current.previousHash));
      if current.hash != Some(calculated) {
        assert !Linked(hash, receipts, i);
        return false;
      }
      if i < |receipts| - 1 {
        if current.previousHash != receipts[i + 1].hash {
          assert !Linked(hash, receipts, i);
          return false;
        }
      } else if current.previousHash != Some("") {
        assert !Linked(hash, receipts, i);
        return false;
      }
    }
    ok := true;
  }

  /** What one turn of the verifier's loop checks. */
  ghost predicate Linked<P, S>(hash: Hash<P, S>, receipts: seq<Receipt<P, S>>, i: nat)
    requires i < |receipts|
  {
    var r := receipts[i];
    && r.hash == Some(hash(r.payload, r.signature, OrEmpty(r.previousHash)))
    && r.previousHash == if i + 1 < |receipts| then receipts[i + 1].hash else Some("")
  }

  ghost function Inputs<P, S>(receipts: seq<Receipt<P, S>>): seq<(P, S)> {
    if receipts == [] then [] else [(receipts[0].payload, receipts[0].signature)] + Inputs(receipts[1..])
  }

  ghost predicate Chain<P, S>(hash: Hash<P, S>, receipts: seq<Receipt<P, S>>) {
    forall i | 0 <= i < |receipts| :: Linked(hash, receipts, i)
  }

  lemma ChainTail<P, S>(hash: Hash<P, S>, receipts: seq<Receipt<P, S>>)
    requires receipts != []
    ensures Chain(hash, receipts) <==> Linked(hash, receipts, 0) && Chain(hash, receipts[1..])
  {
    forall i | 0 <= i < |receipts| - 1 ensures Linked(hash, receipts[1..], i) <==> Linked(hash, receipts, i + 1) {
    }
    if Linked(hash, receipts, 0) && Chain(hash, receipts[1..]) {
      forall i | 0 <= i < |receipts| ensures Linked(hash, receipts, i) {
        assert i > 0 ==> Linked(hash, receipts[1..], i - 1);
      }
    }
  }

  lemma {:induction false} ChainMeansBuilt<P, S>(hash: Hash<P, S>, receipts: seq<Receipt<P, S>>)
    ensures Chain(hash, receipts) <==> receipts == Build(hash, Inputs(receipts))
    decreases |receipts|
  {
    if receipts != [] {
      ChainTail(hash, receipts);
      ChainMeansBuilt(hash, receipts[1..]);
      assert Inputs(receipts)[1..] == Inputs(receipts[1..]);
      assert receipts == [receipts[0]] + receipts[1..];
    }
  }

  lemma {:induction false} InputsOfBuilt<P, S>(hash: Hash<P, S>, inputs: seq<(P, S)>)
    ensures Inputs(Build(hash, inputs)) == inputs
  {
    if inputs != [] {
      InputsOfBuilt(hash, inputs[1..]);
      var rest := Build(hash, inputs[1..]);
      assert Build(hash, inputs)[1..] == rest;
      assert inputs == [inputs[0]] + inputs[1..];
    }
  }

  // ---------- main results ----------

  /** A list verifies exactly when appending to the empty list can build it, and then from one input only. */
  lemma VerifiesIffBuilt<P(!new), S(!new)>(hash: Hash<P, S>, receipts: seq<Receipt<P, S>>)
    ensures Chain(hash, receipts) <==> exists inputs: seq<(P, S)> :: receipts == Build(hash, inputs)
    ensures forall inputs: seq<(P, S)> | receipts == Build(hash, inputs) :: inputs == Inputs(receipts)
  {
    ChainMeansBuilt(hash, receipts);
    forall inputs: seq<(P, S)> | receipts == Build(hash, inputs) ensures inputs == Inputs(receipts) {
      InputsOfBuilt(hash, inputs);
    }
  }

  ghost predicate CollisionFree<P(!new), S(!new)>(hash: Hash<P, S>) {
    forall p: P, s: S, h: string, p': P, s': S, h': string :: hash(p, s, h) == hash(p', s', h') ==>
      p == p' && s == s' && h == h'
  }

  ghost predicate NeverEmpty<P(!new), S(!new)>(hash: Hash<P, S>) {
    forall p: P, s: S, h: string :: hash(p, s, h) != ""
  }

  /** Two verifying lists with the same head hash are the same list: the head hash pins the whole history. */
  lemma {:induction false} HeadHashPinsHistory<P(!new), S(!new)>(
      hash: Hash<P, S>, a: seq<Receipt<P, S>>, b: seq<Receipt<P, S>>)
    requires CollisionFree(hash) && NeverEmpty(hash)
    requires Chain(hash, a) && Chain(hash, b) && HeadHash(a) == HeadHash(b)
    ensures a == b
    decreases |a|
  {
    if a != [] {
      assert Linked(hash, a, 0);
    }
    if b != [] {
      assert Linked(hash, b, 0);
    }
    if a != [] && b != [] {
      ChainTail(hash, a);
      ChainTail(hash, b);
      assert a[1..] != [] ==> Linked(hash, a[1..], 0);
      assert b[1..] != [] ==> Linked(hash, b[1..], 0);
      HeadHashPinsHistory(hash, a[1..], b[1..]);
      assert a == [a[0]] + a[1..] && b == [b[0]] + b[1..];
    }
  }

  /**
   Replacing any receipt of a verifying list by a different one, and keeping the head hash, makes verification fail.
   */
  lemma TamperingIsDetected<P(!new), S(!new)>(hash: Hash<P, S>, a: seq<Receipt<P, S>>, i: nat, r: Receipt<P, S>)
    requires CollisionFree(hash) && NeverEmpty(hash) && Chain(hash, a) && i < |a| && r != a[i]
    requires HeadHash(a[i := r]) == HeadHash(a)
    ensures !Chain(hash, a[i := r])
  {
    assert a[i := r][i] == r;
    if Chain(hash, a[i := r]) {
      HeadHashPinsHistory(hash, a, a[i := r]);
    }
  }

  // ---------- starting from a list that is not empty ----------

  lemma AppendKeepsVerdict<P, S>(hash: Hash<P, S>, list: seq<Receipt<P, S>>, payload: P, signature: S)
    ensures Chain(hash, Append(hash, list, payload, signature)) <==> Chain(hash, list)
  {
    var longer := Append(hash, list, payload, signature);
    ChainTail(hash, longer);
    assert longer[1..] == list;
    if Chain(hash, list) && list != [] {
      assert Linked(hash, list, 0);
    }
  }

  /**
   Appending neither breaks nor repairs a chain: the longer list verifies exactly when the list it started from does.
   */
  lemma {:induction false} VerdictOfStart<P, S>(hash: Hash<P, S>, start: seq<Receipt<P, S>>, inputs: seq<(P, S)>)
    ensures Chain(hash, BuildOn(hash, start, inputs)) <==> Chain(hash, start)
    decreases |inputs|
  {
    if inputs != [] {
      VerdictOfStart(hash, start, inputs[1..]);
      AppendKeepsVerdict(hash, BuildOn(hash, start, inputs[1..]), inputs[0].0, inputs[0].1);
    }
  }

  /** A store seeded with receipts that carry no hash never verifies, whatever is appended to it. */
  lemma SeededListNeverVerifies<P, S>(hash: Hash<P, S>, start: seq<Receipt<P, S>>, i: nat, inputs: seq<(P, S)>)
    requires i < |start| && start[i].hash == None
    ensures !Chain(hash, BuildOn(hash, start, inputs))
  {
    assert !Linked(hash, start, i);
    VerdictOfStart(hash, start, inputs);
  }
}
