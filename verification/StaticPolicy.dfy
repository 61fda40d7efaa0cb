/** Which precompressed sidecars to probe, and in which order (core/src/static_policy.rs). */
module StaticPolicy {
  import opened Wrappers
  import opened Negotiation

  datatype StaticMode = Off | On | Always

  /** What the request says: whether it is a GET or a HEAD, its raw path, and its preferences. */
  datatype Facts = Facts(methodSupported: bool, uri: seq<byte>, accept: AcceptEncoding)

  datatype Candidate = Candidate(coding: ContentCoding, extension: string, accepted: bool)

  const SLASH: byte := 0x2f

  function Extension(coding: ContentCoding): Option<string> {
    match coding
    case Zstd => Some(".zst")
    case Brotli => Some(".br")
    case Gzip => Some(".gz")
    case _ => None
  }

  /** The suffixes by which a sidecar is found. */
  lemma ExtensionIff(coding: ContentCoding, extension: string)
    ensures Extension(coding) == Some(extension) <==>
              (coding, extension) in {(Gzip, ".gz"), (Brotli, ".br"), (Zstd, ".zst")}
  {
  }

  predicate NamesAFile(facts: Facts) {
    facts.methodSupported && facts.uri != [] && facts.uri[|facts.uri| - 1] != SLASH
  }

  predicate Accepts(mode: StaticMode, a: AcceptEncoding, coding: ContentCoding) {
    mode == Always || (QualityOf(a, coding) > 0 && QualityOf(a, coding) >= QualityOf(a, Identity))
  }

  /** The codings that have an extension, in the server's order. */
  function InServerOrder(mode: StaticMode, a: AcceptEncoding, preference: seq<ContentCoding>): seq<Candidate> {
    if preference == [] then []
    else
      var coding := preference[0];
      (match Extension(coding)
       case None => []
       case Some(extension) => [Candidate(coding, extension, Accepts(mode, a, coding))])
      + InServerOrder(mode, a, preference[1..])
  }

  // ----- the stable sort -----

  function Insert<T>(key: T -> nat, x: T, sorted: seq<T>): seq<T> {
    if sorted == [] || key(x) >= key(sorted[0]) then [x] + sorted
    else [sorted[0]] + Insert(key, x, sorted[1..])
  }

  /** Highest key first, equal keys as they came. */
  function SortDescending<T>(key: T -> nat, s: seq<T>): seq<T> {
    if s == [] then [] else Insert(key, s[0], SortDescending(key, s[1..]))
  }

  predicate Descending<T>(key: T -> nat, s: seq<T>) {
    forall i, j :: 0 <= i < j < |s| ==> key(s[i]) >= key(s[j])
  }

  function WithKey<T>(key: T -> nat, k: nat, s: seq<T>): seq<T> {
    if s == [] then []
    else (if key(s[0]) == k then [s[0]] else []) + WithKey(key, k, s[1..])
  }

  lemma {:induction false} InsertPermutes<T>(key: T -> nat, x: T, sorted: seq<T>)
    ensures multiset(Insert(key, x, sorted)) == multiset(sorted) + multiset{x}
  {
    if sorted != [] && key(x) < key(sorted[0]) {
      InsertPermutes(key, x, sorted[1..]);
      assert sorted == [sorted[0]] + sorted[1..];
    }
  }

  lemma {:induction false} InsertOrders<T>(key: T -> nat, x: T, sorted: seq<T>)
    requires Descending(key, sorted)
    ensures Descending(key, Insert(key, x, sorted))
  {
    if sorted != [] && key(x) < key(sorted[0]) {
      var rest := Insert(key, x, sorted[1..]);
      InsertOrders(key, x, sorted[1..]);
      InsertPermutes(key, x, sorted[1..]);
      forall i | 0 <= i < |rest| ensures key(sorted[0]) >= key(rest[i]) {
        assert rest[i] in multiset(rest);
        assert rest[i] == x || rest[i] in sorted[1..];
      }
    }
  }

  lemma WithKeyCons<T>(key: T -> nat, k: nat, x: T, s: seq<T>)
    ensures WithKey(key, k, [x] + s) == (if key(x) == k then [x] else []) + WithKey(key, k, s)
  {
    assert ([x] + s)[1..] == s;
  }

  lemma {:induction false} InsertIsStable<T>(key: T -> nat, x: T, sorted: seq<T>, k: nat)
    requires Descending(key, sorted)
    ensures WithKey(key, k, Insert(key, x, sorted)) == (if key(x) == k then [x] else []) + WithKey(key, k, sorted)
  {
    hide WithKey;
    if sorted == [] || key(x) >= key(sorted[0]) {
      WithKeyCons(key, k, x, sorted);
    } else {
      var first, rest := sorted[0], sorted[1..];
      InsertIsStable(key, x, rest, k);
      hide Descending;
      assert Insert(key, x, sorted) == [first] + Insert(key, x, rest);
      hide Insert;
      assert sorted == [first] + rest;
      WithKeyCons(key, k, first, Insert(key, x, rest));
      WithKeyCons(key, k, first, rest);
    }
  }

  /** The sort is one: ordered, a permutation, and stable. */
  lemma {:induction false} SortIsStable<T>(key: T -> nat, s: seq<T>, k: nat)
    ensures Descending(key, SortDescending(key, s))
    ensures multiset(SortDescending(key, s)) == multiset(s)
    ensures WithKey(key, k, SortDescending(key, s)) == WithKey(key, k, s)
  {
    if s != [] {
      hide WithKey, Insert, Descending;
      var first, rest := s[0], s[1..];
      SortIsStable(key, rest, k);
      var sorted := SortDescending(key, rest);
      InsertPermutes(key, first, sorted);
      InsertOrders(key, first, sorted);
      InsertIsStable(key, first, sorted, k);
      WithKeyCons(key, k, first, rest);
      assert s == [first] + rest;
      assert SortDescending(key, s) == Insert(key, first, sorted);
      hide SortDescending;
    }
  }

  // ----- candidates -----

  function ByQuality(a: AcceptEncoding): Candidate -> nat {
    (candidate: Candidate) => QualityOf(a, candidate.coding)
  }

  /** static_candidates. */
  function StaticCandidates(mode: StaticMode, facts: Facts, preference: seq<ContentCoding>): seq<Candidate> {
    if mode == Off || !NamesAFile(facts) then []
    else
      var candidates := InServerOrder(mode, facts.accept, preference);
      if mode == On then SortDescending(ByQuality(facts.accept), candidates) else candidates
  }
}
