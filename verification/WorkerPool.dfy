/**
 * Reuse of codecs within a worker (module/src/filter/worker.rs, select.rs, and the cleanup in context.rs).
 */
module WorkerPool {
  import opened Wrappers
  import opened Negotiation
  import opened Configuration

  const MAX_IDLE: nat := 8
  const I32_MAX: nat := 0x7FFF_FFFF

  datatype CodecKey = CodecKey(coding: ContentCoding, level: int, window: nat)

  /** What a codec is constructed with. */
  datatype Params =
    | GzipParams(level: nat)
    | DeflateParams(level: nat)
    | BrotliParams(quality: nat, window: nat)
    | ZstdParams(zstdLevel: int)

  function AsI32(level: nat): Option<int> {
    if level <= I32_MAX then Some(level) else None
  }

  /** level_i32. */
  function LevelI32(settings: Settings, coding: ContentCoding): Option<int> {
    match coding
    case Gzip => (match settings.gzip case None => None case Some(level) => AsI32(level))
    case Deflate => (match settings.deflate case None => None case Some(level) => AsI32(level))
    case Brotli => (match settings.brotli case None => None case Some((quality, _)) => AsI32(quality))
    case Zstd => settings.zstd
    case _ => None
  }

  /** The key build looks for, if the coding has a level at all. */
  function KeyFor(settings: Settings, coding: ContentCoding): Option<CodecKey> {
    match LevelI32(settings, coding)
    case None => None
    case Some(level) =>
      Some(CodecKey(coding, level,
                    if coding == Brotli && settings.brotli.Some? then settings.brotli.value.1 else 0))
  }

  /** What construct passes to the codec. */
  function ParamsFor(settings: Settings, coding: ContentCoding): Option<Params> {
    match coding
    case Gzip => (match settings.gzip case None => None case Some(level) => Some(GzipParams(level)))
    case Deflate => (match settings.deflate case None => None case Some(level) => Some(DeflateParams(level)))
    case Brotli =>
      (match settings.brotli case None => None case Some((quality, window)) => Some(BrotliParams(quality, window)))
    case Zstd => (match settings.zstd case None => None case Some(level) => Some(ZstdParams(level)))
    case _ => None
  }

  /** The algorithm that parameters are for. */
  function AlgorithmOf(params: Params): ContentCoding {
    match params
    case GzipParams(_) => Gzip
    case DeflateParams(_) => Deflate
    case BrotliParams(_, _) => Brotli
    case ZstdParams(_) => Zstd
  }

  /** The numbers are those that the location configures for the algorithm. */
  predicate Configured(settings: Settings, params: Params) {
    match params
    case GzipParams(level) => settings.gzip == Some(level)
    case DeflateParams(level) => settings.deflate == Some(level)
    case BrotliParams(quality, window) => settings.brotli == Some((quality, window))
    case ZstdParams(level) => settings.zstd == Some(level)
  }

  /** A coding's codec is constructed for its own algorithm, with the numbers configured for that one. */
  lemma ParamsAreConfigured(settings: Settings, coding: ContentCoding, params: Params)
    ensures ParamsFor(settings, coding) == Some(params) <==>
              AlgorithmOf(params) == coding && Configured(settings, params)
  {
  }

  /** A key holds every number of the parameters it stands for; only a number that does not fit in 32 bits has no
      key. */
  lemma KeyHoldsParams(settings: Settings, coding: ContentCoding)
    ensures KeyFor(settings, coding) ==
              match ParamsFor(settings, coding)
              case Some(GzipParams(level)) => KeyIfFits(CodecKey(Gzip, level, 0))
              case Some(DeflateParams(level)) => KeyIfFits(CodecKey(Deflate, level, 0))
              case Some(BrotliParams(quality, window)) => KeyIfFits(CodecKey(Brotli, quality, window))
              case Some(ZstdParams(level)) => Some(CodecKey(Zstd, level, 0))
              case None => None
  {
  }

  function KeyIfFits(key: CodecKey): Option<CodecKey> {
    if key.level < 0x8000_0000 then Some(key) else None
  }

  /** Whatever locations two requests come from, equal keys mean that the same codec would be constructed. */
  lemma KeyDeterminesParams(a: Settings, x: ContentCoding, b: Settings, y: ContentCoding)
    requires KeyFor(a, x).Some? && KeyFor(a, x) == KeyFor(b, y)
    ensures ParamsFor(a, x).Some? && ParamsFor(a, x) == ParamsFor(b, y)
  {
  }

  /** `key` stands for codecs constructed with `params`. */
  ghost predicate Matches(key: CodecKey, params: Params) {
    exists settings, coding :: KeyFor(settings, coding) == Some(key) && ParamsFor(settings, coding) == Some(params)
  }

  lemma MatchesOnlyOne(key: CodecKey, params: Params, settings: Settings, coding: ContentCoding)
    requires Matches(key, params) && KeyFor(settings, coding) == Some(key)
    ensures ParamsFor(settings, coding) == Some(params)
  {
    var s, c :| KeyFor(s, c) == Some(key) && ParamsFor(s, c) == Some(params);
    KeyDeterminesParams(s, c, settings, coding);
  }

  lemma OnlyTheseParams(settings: Settings, coding: ContentCoding)
    requires KeyFor(settings, coding).Some?
    ensures ParamsFor(settings, coding).Some?
    ensures var key, params := KeyFor(settings, coding).value, ParamsFor(settings, coding).value;
            Matches(key, params) && forall p :: Matches(key, p) ==> p == params
  {
    KeyDeterminesParams(settings, coding, settings, coding);
    var key := KeyFor(settings, coding).value;
    forall p | Matches(key, p) ensures p == ParamsFor(settings, coding).value {
      MatchesOnlyOne(key, p, settings, coding);
    }
  }

  // ----- codecs -----

  /** A codec instance; `makes` gives the state of a new one. */
  class Encoder<S> {
    const params: Params
    const makes: Params -> S
    var state: S

    constructor (params: Params, makes: Params -> S)
      ensures this.params == params && this.makes == makes && state == makes(params)
    {
      this.params := params;
      this.makes := makes;
      state := makes(params);
    }

    /** The library may refuse. */
    method Reset(fails: bool) returns (ok: bool)
      modifies this
      ensures ok <==> !fails
      ensures ok ==> state == makes(params)
    {
      if !fails { state := makes(params); }
      ok := !fails;
    }
  }

  datatype Entry<!S> = Entry(key: CodecKey, codec: Encoder<S>)

  datatype Acquired<!S> = NoneIdle | ResetFailed | Reused(codec: Encoder<S>)

  datatype Built<!S> = Initialization | Ready(codec: Encoder<S>, key: CodecKey, resetRecovered: bool)

  datatype Chosen<!S> =
    | NoneAcceptable
    | NoCodec
    | InitializationFailed
    | Compressed(codec: Encoder<S>, resetRecovered: bool)

  /** The first idle codec for `key`. */
  function Position<S>(pool: seq<Entry<S>>, key: CodecKey): (i: Option<nat>)
    ensures i.Some? ==>
              && i.value < |pool| && pool[i.value].key == key
              && forall j :: 0 <= j < i.value ==> pool[j].key != key
    ensures i.None? ==> forall j :: 0 <= j < |pool| ==> pool[j].key != key
  {
    if pool == [] then None
    else if pool[0].key == key then Some(0)
    else
      match Position(pool[1..], key)
      case None => None
      case Some(i) => Some(i + 1)
  }

  /** An idle codec of the key is there, and its reset succeeds. */
  predicate CanReuse<S>(pool: seq<Entry<S>>, key: CodecKey, resetFails: bool) {
    Position(pool, key).Some? && !resetFails
  }

  /** The case in which a request gets no codec: its coding has no level, or a new codec was needed and not made. */
  predicate CannotBuild<S>(pool: seq<Entry<S>>, key: Option<CodecKey>, resetFails: bool, constructFails: bool) {
    key.None? || (constructFails && !CanReuse(pool, key.value, resetFails))
  }

  /** Vec::swap_remove: the last takes the place of the one removed. */
  function SwapRemove<T>(s: seq<T>, i: nat): (r: seq<T>)
    requires i < |s|
    ensures |r| == |s| - 1
  {
    s[i := s[|s| - 1]][..|s| - 1]
  }

  lemma SwapRemoveTakesOne<T>(s: seq<T>, i: nat)
    requires i < |s|
    ensures multiset(SwapRemove(s, i)) + multiset{s[i]} == multiset(s)
  {
    var last := |s| - 1;
    var swapped := s[i := s[last]];
    assert s == s[..last] + [s[last]];
    if i == last {
      assert SwapRemove(s, i) == s[..last];
    } else {
      assert SwapRemove(s, i) == s[..last][i := s[last]];
    }
  }

  /** No codec is in two places. */
  ghost predicate NoneShared<S>(pool: seq<Entry<S>>, live: map<nat, Entry<S>>) {
    && (forall i, j :: 0 <= i < j < |pool| ==> pool[i].codec != pool[j].codec)
    && (forall i, r :: 0 <= i < |pool| && r in live ==> pool[i].codec != live[r].codec)
    && (forall q, r :: q in live && r in live && q != r ==> live[q].codec != live[r].codec)
  }

  ghost predicate Labelled<S>(makes: Params -> S, entry: Entry<S>) {
    entry.codec.makes == makes && Matches(entry.key, entry.codec.params)
  }

  lemma RemovalKeeps<S>(pool: seq<Entry<S>>, live: map<nat, Entry<S>>, i: nat)
    requires NoneShared(pool, live) && i < |pool|
    ensures NoneShared(SwapRemove(pool, i), live)
    ensures forall e :: e in SwapRemove(pool, i) ==> e in pool && e.codec != pool[i].codec
    ensures forall r :: r in live ==> live[r].codec != pool[i].codec
  {
    var after := SwapRemove(pool, i);
    assert forall j :: 0 <= j < |after| ==> after[j] == if j == i then pool[|pool| - 1] else pool[j];
  }

  lemma InstallKeeps<S>(pool: seq<Entry<S>>, live: map<nat, Entry<S>>, request: nat, entry: Entry<S>)
    requires NoneShared(pool, live) && request !in live
    requires forall i :: 0 <= i < |pool| ==> pool[i].codec != entry.codec
    requires forall r :: r in live ==> live[r].codec != entry.codec
    ensures NoneShared(pool, live[request := entry])
  {
  }

  /** One worker: its idle codecs, and those its requests hold. */
  class Worker<S> {
    const makes: Params -> S
    var pool: seq<Entry<S>>
    var live: map<nat, Entry<S>>

    ghost predicate Valid()
      reads this
    {
      && |pool| <= MAX_IDLE
      && NoneShared(pool, live)
      && (forall i :: 0 <= i < |pool| ==> Labelled(makes, pool[i]))
      && (forall r :: r in live ==> Labelled(makes, live[r]))
    }

    constructor (makes: Params -> S)
      ensures Valid() && this.makes == makes && pool == [] && live == map[]
    {
      this.makes := makes;
      pool, live := [], map[];
    }

    ghost function Codecs(): set<Encoder<S>>
      reads this
    {
      set entry | entry in pool :: entry.codec
    }

    /** acquire: a match leaves the pool, and comes back to life only if its reset succeeds. */
    method Acquire(key: CodecKey, resetFails: bool) returns (r: Acquired<S>)
      requires Valid()
      modifies this`pool, Codecs()
      ensures Valid()
      ensures match Position(old(pool), key)
              case None => r == NoneIdle && pool == old(pool)
              case Some(i) =>
                && pool == SwapRemove(old(pool), i)
                && (if resetFails then r == ResetFailed else r == Reused(old(pool)[i].codec))
                && (forall j :: 0 <= j < |pool| ==> pool[j].codec != old(pool)[i].codec)
                && (forall q :: q in live ==> live[q].codec != old(pool)[i].codec)
                && Labelled(makes, Entry(key, old(pool)[i].codec))
      ensures r.Reused? ==> r.codec.state == makes(r.codec.params)
    {
      var index := 0;
      while index < |pool| && pool[index].key != key
        invariant index <= |pool|
        invariant forall j :: 0 <= j < index ==> pool[j].key != key
      {
        index := index + 1;
      }
      if index == |pool| {
        return NoneIdle;
      }
      assert Position(pool, key) == Some(index);
      var entry := pool[index];
      RemovalKeeps(pool, live, index);
      assert entry.codec in Codecs();
      pool := SwapRemove(pool, index);
      var ok := entry.codec.Reset(resetFails);
      r := if ok then Reused(entry.codec) else ResetFailed;
    }

    /** release: back to the pool if there is room, else dropped. */
    method Release(entry: Entry<S>)
      requires Valid() && Labelled(makes, entry)
      requires forall i :: 0 <= i < |pool| ==> pool[i].codec != entry.codec
      requires forall r :: r in live ==> live[r].codec != entry.codec
      modifies this`pool
      ensures Valid()
      ensures pool == if |old(pool)| < MAX_IDLE then old(pool) + [entry] else old(pool)
      ensures |pool| <= 8
    {
      if |pool| < MAX_IDLE {
        pool := pool + [entry];
      }
    }

    /** acquire, or construct; a failed reset is made good by a new codec. */
    method Obtain(key: CodecKey, params: Params, resetFails: bool, constructFails: bool)
      returns (codec: Encoder?<S>, resetRecovered: bool)
      requires Valid() && Matches(key, params) && forall p :: Matches(key, p) ==> p == params
      modifies this`pool, Codecs()
      ensures Valid()
      ensures codec == null <==> constructFails && !CanReuse(old(pool), key, resetFails)
      ensures resetRecovered <==> Position(old(pool), key).Some? && resetFails
      ensures codec != null ==>
                && codec.params == params && codec.makes == makes && codec.state == makes(params)
                && (forall j :: 0 <= j < |pool| ==> pool[j].codec != codec)
                && (forall q :: q in live ==> live[q].codec != codec)
                && (fresh(codec) || Entry(key, codec) in old(pool))
      ensures pool == match Position(old(pool), key) case None => old(pool) case Some(i) => SwapRemove(old(pool), i)
    {
      hide Matches, NoneShared, SwapRemove;
      ghost var were := pool;
      var acquired := Acquire(key, resetFails);
      if acquired.Reused? {
        codec := acquired.codec;
        assert were[Position(were, key).value] == Entry(key, codec);
      } else if constructFails {
        codec := null;
      } else {
        codec := new Encoder(params, makes);
      }
      resetRecovered := acquired == ResetFailed;
    }

    /** build, and install in a request. Reused or new, the codec has the parameters its location asks for
        and the state of a new one, so every step it takes is a new codec's. */
    method Build(settings: Settings, coding: ContentCoding, request: nat, resetFails: bool, constructFails: bool)
      returns (r: Built<S>)
      requires Valid() && request !in live
      modifies this, Codecs()
      ensures Valid()
      ensures r.Initialization? <==> CannotBuild(old(pool), KeyFor(settings, coding), resetFails, constructFails)
      ensures r.Initialization? ==> live == old(live)
      ensures r.Ready? ==>
                && KeyFor(settings, coding) == Some(r.key)
                && ParamsFor(settings, coding) == Some(r.codec.params)
                && r.codec.state == makes(r.codec.params)
                && live == old(live)[request := Entry(r.key, r.codec)]
                && (fresh(r.codec) || Entry(r.key, r.codec) in old(pool))
                && (r.resetRecovered <==> Position(old(pool), r.key).Some? && resetFails)
    {
      var key := KeyFor(settings, coding);
      if key.None? {
        return Initialization;
      }
      OnlyTheseParams(settings, coding);
      hide KeyFor, ParamsFor, Matches, Position, SwapRemove;
      var codec, resetRecovered := Obtain(key.value, ParamsFor(settings, coding).value, resetFails, constructFails);
      if codec == null {
        return Initialization;
      }
      InstallKeeps(pool, live, request, Entry(key.value, codec));
      hide NoneShared;
      live := live[request := Entry(key.value, codec)];
      r := Ready(codec, key.value, resetRecovered);
    }

    /** The request's cleanup: its codec goes back under its own key. */
    method Cleanup(request: nat)
      requires Valid()
      modifies this
      ensures Valid()
      ensures live == old(live) - {request}
      ensures pool ==
                if request in old(live) && |old(pool)| < MAX_IDLE then old(pool) + [old(live)[request]] else old(pool)
    {
      if request in live {
        var entry := live[request];
        live := live - {request};
        Release(entry);
      }
    }

    /** choose: the negotiated coding's codec, none for identity, or a refusal. */
    method Choose(settings: Settings, accept: AcceptEncoding, request: nat, resetFails: bool, constructFails: bool)
      returns (r: Chosen<S>)
      requires Valid() && request !in live
      modifies this, Codecs()
      ensures Valid()
      ensures var choice := Negotiate(accept, settings.priority, Available(settings));
              && (r == NoneAcceptable <==> choice == NotAcceptable)
              && (r == NoCodec <==> choice == Selected(Identity))
              && (r == InitializationFailed <==>
                    && choice.Selected? && choice.coding != Identity
                    && CannotBuild(old(pool), KeyFor(settings, choice.coding), resetFails, constructFails))
              && (r.Compressed? ==>
                    && choice.Selected? && KeyFor(settings, choice.coding).Some?
                    && (r.resetRecovered <==>
                          Position(old(pool), KeyFor(settings, choice.coding).value).Some? && resetFails))
              && (r.Compressed? ==>
                    && choice.Selected? && ParamsFor(settings, choice.coding) == Some(r.codec.params)
                    && r.codec.state == makes(r.codec.params)
                    && request in live && live[request].codec == r.codec)
      ensures !r.Compressed? ==> live == old(live)
    {
      match Negotiate(accept, settings.priority, Available(settings)) {
        case NotAcceptable => return NoneAcceptable;
        case Selected(coding) =>
          if coding == Identity { return NoCodec; }
          var built := Build(settings, coding, request, resetFails, constructFails);
          match built {
            case Initialization => return InitializationFailed;
            case Ready(codec, _, resetRecovered) => return Compressed(codec, resetRecovered);
          }
      }
    }
  }

  /** available, with identity always there. */
  function Available(settings: Settings): ContentCoding -> bool {
    (coding: ContentCoding) => coding == Identity || ParamsFor(settings, coding).Some?
  }
}
