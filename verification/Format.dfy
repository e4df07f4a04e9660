/** Internal keys, entries, and what a read at a sequence number means. */
module Format {
  import opened Keys

  datatype ValueType = Deletion | Value

  datatype IKey = IKey(user: Bytes, sn: nat, kind: ValueType)

  datatype Entry = Entry(ik: IKey, value: Bytes)

  /** kMaxSequenceNumber: sequence numbers fit in 56 bits. */
  const MAX_SEQUENCE := 0xff_ffff_ffff_ffff

  /** PackSequenceAndType. */
  function Tag(k: IKey): nat {
    k.sn * 256 + (if k.kind.Value? then 1 else 0)
  }

  /** InternalKeyComparator: user key ascending, then packed tag descending. */
  predicate ILess(a: IKey, b: IKey) {
    Rank(a.user) < Rank(b.user) || (a.user == b.user && Tag(a) > Tag(b))
  }

  predicate ILeq(a: IKey, b: IKey) {
    a == b || ILess(a, b)
  }

  /** Strictly increasing in internal-key order. */
  predicate Sorted(es: seq<Entry>) {
    forall i, j :: 0 <= i < j < |es| ==> ILess(es[i].ik, es[j].ik)
  }

  /** One entry per user key and sequence number. */
  ghost predicate Distinct(es: iset<Entry>) {
    forall a, b :: a in es && b in es && a.ik.user == b.ik.user && a.ik.sn == b.ik.sn ==> a == b
  }

  ghost function Elems(es: seq<Entry>): iset<Entry> {
    iset e | e in es
  }

  /** The entry of user key k with the greatest sequence number <= s. */
  ghost function Newest(es: iset<Entry>, k: Bytes, s: nat): (r: Option<Entry>)
    ensures r.Some? ==> r.value in es && r.value.ik.user == k && r.value.ik.sn <= s
    ensures r.Some? ==> forall e :: e in es && e.ik.user == k && e.ik.sn <= s ==> e.ik.sn <= r.value.ik.sn
    ensures r.None? ==> forall e :: e in es && e.ik.user == k ==> s < e.ik.sn
    decreases s
  {
    if exists e :: e in es && e.ik.user == k && e.ik.sn == s then
      var e :| e in es && e.ik.user == k && e.ik.sn == s;
      Some(e)
    else if s == 0 then None
    else Newest(es, k, s - 1)
  }

  /** What a read of k at sequence number s returns: the value of the newest visible entry, if that is a value. */
  ghost function Read(es: iset<Entry>, k: Bytes, s: nat): Option<Bytes> {
    match Newest(es, k, s)
    case Some(e) => if e.ik.kind.Value? then Some(e.value) else None
    case None => None
  }

  /** The map a reader sees at s: the specification every fast structure is compared with. */
  ghost predicate SameReads(a: iset<Entry>, b: iset<Entry>, s: nat) {
    forall k: Bytes :: Read(a, k, s) == Read(b, k, s)
  }

  lemma NewestIs(es: iset<Entry>, k: Bytes, s: nat, e: Entry)
    requires Distinct(es)
    requires e in es && e.ik.user == k && e.ik.sn <= s
    requires forall o :: o in es && o.ik.user == k && o.ik.sn <= s ==> o.ik.sn <= e.ik.sn
    ensures Newest(es, k, s) == Some(e)
  {
  }

  lemma NewestNone(es: iset<Entry>, k: Bytes, s: nat)
    requires forall o :: o in es && o.ik.user == k ==> s < o.ik.sn
    ensures Newest(es, k, s) == None
  {
  }

  /** The internal key a lookup at sequence number s seeks to. */
  function LookupKey(k: Bytes, s: nat): IKey {
    IKey(k, s, Value)
  }
}
