/**
 * The in-memory cache of OpenSourceMano cloud records
 * (pkg/cloud/store/opensourcemano/store.go).
 *
 * The etcd client is not modelled; what it answers is passed in: the result of looking up
 * one key for `Get`, and the listing under the cloud prefix for `Load`. Each value comes
 * already decoded from JSON, as `None` when decoding failed.
 */
module ManoStore {
  import opened Options

  /** `model.ManoType`, the provider name of OpenSourceMano clouds. */
  const ManoType: string := "opensourcemano"

  /** `model.OpenSourceMano`; `settings` stands for every field other than the provider. */
  datatype Cloud = Cloud(provider: string, settings: string)

  /** The zero value a Go map lookup yields for a missing key. */
  const ZeroCloud := Cloud("", "")

  /** `strings.Split(s, sep)` for a one-character separator: n separators give n + 1 parts. */
  function Split(s: string, sep: char): (parts: seq<string>)
    ensures |parts| >= 1
    decreases |s|
  {
    if s == [] then [[]]
    else
      var rest := Split(s[1..], sep);
      if s[0] == sep then [[]] + rest else [[s[0]] + rest[0]] + rest[1..]
  }

  /** `strings.Join(parts, sep)`. */
  function Join(parts: seq<string>, sep: char): string
    requires |parts| >= 1
    decreases |parts|
  {
    if |parts| == 1 then parts[0] else parts[0] + [sep] + Join(parts[1..], sep)
  }

  /** Joining the parts of a split gives back the string, and no part holds the separator. */
  lemma {:induction false} SplitJoin(s: string, sep: char)
    ensures Join(Split(s, sep), sep) == s
    ensures forall i :: 0 <= i < |Split(s, sep)| ==> sep !in Split(s, sep)[i]
    decreases |s|
  {
    if s != [] {
      SplitJoin(s[1..], sep);
      var rest := Split(s[1..], sep);
      if s[0] == sep {
        assert ([[]] + rest)[1..] == rest;
        assert s == [sep] + s[1..];
      } else if |rest| == 1 {
        assert s == [s[0]] + s[1..];
      } else {
        var parts := [[s[0]] + rest[0]] + rest[1..];
        assert parts[1..] == rest[1..];
        assert Join(rest, sep) == rest[0] + [sep] + Join(rest[1..], sep);
        assert s == [s[0]] + s[1..];
      }
    }
  }

  /** A string without the separator is a single part. */
  lemma {:induction false} SplitWithoutSeparator(s: string, sep: char)
    requires sep !in s
    ensures Split(s, sep) == [s]
    decreases |s|
  {
    if s != [] {
      SplitWithoutSeparator(s[1..], sep);
      assert s == [s[0]] + s[1..];
    }
  }

  /** One step of `Split`: the first character either ends the first part or joins it. */
  lemma SplitStep(c: char, t: string, sep: char)
    ensures Split([c] + t, sep) ==
              if c == sep then [[]] + Split(t, sep)
              else [[c] + Split(t, sep)[0]] + Split(t, sep)[1..]
  {
    assert ([c] + t)[0] == c && ([c] + t)[1..] == t;
  }

  /** Splitting at a separator splits the two sides independently. */
  lemma {:induction false} SplitAtSeparator(a: string, b: string, sep: char)
    ensures Split(a + [sep] + b, sep) == Split(a, sep) + Split(b, sep)
    decreases |a|
  {
    if a == [] {
      assert a + [sep] + b == [sep] + b;
      SplitStep(sep, b, sep);
    } else {
      var c, t := a[0], a[1..];
      var whole := t + [sep] + b;
      assert a == [c] + t;
      assert a + [sep] + b == [c] + whole;
      SplitAtSeparator(t, b, sep);
      SplitStepJoined(c, Split(t, sep), Split(b, sep), Split(whole, sep), sep);
      SplitStep(c, whole, sep);
      SplitStep(c, t, sep);
    }
  }

  /** The step of `Split` commutes with appending the parts of a second string. */
  lemma SplitStepJoined(c: char, left: seq<string>, right: seq<string>, joined: seq<string>, sep: char)
    requires |left| >= 1 && joined == left + right
    ensures (if c == sep then [[]] + joined else [[c] + joined[0]] + joined[1..]) ==
            (if c == sep then [[]] + left else [[c] + left[0]] + left[1..]) + right
  {
    if c != sep {
      assert joined[0] == left[0];
      assert joined[1..] == left[1..] + right;
    }
  }

  /** The cloud ID of a listed key: its third `/`-separated part, if it has one. */
  function KeyId(key: string): Option<string>
  {
    var parts := Split(key, '/');
    if |parts| > 2 then Some(parts[2]) else None
  }

  /** A key `/<prefix>/<id>` has the ID `id`. */
  lemma KeyIdOfPath(prefix: string, id: string)
    requires '/' !in prefix && '/' !in id
    ensures KeyId("/" + prefix + "/" + id) == Some(id)
  {
    SplitAtSeparator(prefix, id, '/');
    SplitAtSeparator([], prefix + "/" + id, '/');
    assert "/" + prefix + "/" + id == [] + ['/'] + (prefix + ['/'] + id);
    SplitWithoutSeparator(prefix, '/');
    SplitWithoutSeparator(id, '/');
  }

  /** A key with fewer than two separators has no ID. */
  lemma KeyIdNeedsTwoSeparators(a: string, b: string)
    requires '/' !in a && '/' !in b
    ensures KeyId(a) == None && KeyId(a + "/" + b) == None
  {
    SplitWithoutSeparator(a, '/');
    SplitWithoutSeparator(b, '/');
    SplitAtSeparator(a, b, '/');
  }

  // ---------------------------------------------------------------------------------------
  // Get

  /** What the backing store returned for one key: an error, or its values, each decoded. */
  datatype Fetch = FetchFailed | Fetched(values: seq<Option<Cloud>>)

  /** The value and found flag `Get` returns, and the cache after the call. */
  datatype GetResult = GetResult(value: Cloud, found: bool, clouds: map<string, Cloud>)

  /** `Get`: a hit is served from the cache; a miss falls back to the backing store. */
  function Lookup(clouds: map<string, Cloud>, key: string, fetch: Fetch): (r: GetResult)
    ensures key in clouds ==> r == GetResult(clouds[key], true, clouds)
    ensures r.found <==> key in r.clouds
    ensures r.found ==> r.value == r.clouds[key]
    ensures !r.found ==> r.value == ZeroCloud && r.clouds == clouds
    ensures r.found && key !in clouds ==> r.value.provider == ManoType && r.clouds == clouds[key := r.value]
  {
    if key in clouds then GetResult(clouds[key], true, clouds)
    else if fetch.FetchFailed? || |fetch.values| != 1 || fetch.values[0].None? then
      GetResult(ZeroCloud, false, clouds)
    else if fetch.values[0].value.provider == ManoType then
      GetResult(fetch.values[0].value, true, clouds[key := fetch.values[0].value])
    else GetResult(ZeroCloud, false, clouds)
  }

  /**
   * On a miss, the record is found exactly when the backing store answered with one value that
   * decodes to an OpenSourceMano record.
   */
  lemma MissFoundIff(clouds: map<string, Cloud>, key: string, fetch: Fetch)
    requires key !in clouds
    ensures Lookup(clouds, key, fetch).found <==>
              fetch.Fetched? && |fetch.values| == 1 && fetch.values[0].Some? &&
              fetch.values[0].value.provider == ManoType
    ensures Lookup(clouds, key, fetch).found ==> Lookup(clouds, key, fetch).value == fetch.values[0].value
  {
  }

  /** Once found, a record is served from the cache by every later `Get`, whatever the backend says. */
  lemma FoundStaysCached(clouds: map<string, Cloud>, key: string, fetch: Fetch, later: Fetch)
    requires Lookup(clouds, key, fetch).found
    ensures var r := Lookup(clouds, key, fetch);
            Lookup(r.clouds, key, later) == r
  {
  }

  /** How a call of `Get` as written ends: it returns, or it waits for ever on its own lock. */
  datatype GetCall = Returned(result: GetResult) | SelfDeadlock

  /**
   * `Get` as written: it holds the read lock until it returns, and the `Set` it calls after a
   * miss that finds an OpenSourceMano record waits for every read lock to be released first.
   */
  function LookupAsWritten(clouds: map<string, Cloud>, key: string, fetch: Fetch): GetCall
  {
    if key in clouds then Returned(GetResult(clouds[key], true, clouds))
    else if fetch.FetchFailed? || |fetch.values| != 1 || fetch.values[0].None? then
      Returned(GetResult(ZeroCloud, false, clouds))
    else if fetch.values[0].value.provider == ManoType then SelfDeadlock
    else Returned(GetResult(ZeroCloud, false, clouds))
  }

  /** As written, a miss whose backing record is an OpenSourceMano cloud never returns. */
  lemma GetAsWrittenDeadlocksOnFetchedRecord(clouds: map<string, Cloud>, key: string, cloud: Cloud)
    requires key !in clouds && cloud.provider == ManoType
    ensures LookupAsWritten(clouds, key, Fetched([Some(cloud)])) == SelfDeadlock
  {
  }

  /**
   * `Lookup` returns whatever the code as written returns, and where the code waits for ever
   * it returns the fetched record and caches it.
   */
  lemma LookupAgreesWhereAsWrittenReturns(clouds: map<string, Cloud>, key: string, fetch: Fetch)
    ensures LookupAsWritten(clouds, key, fetch).Returned? ==>
              LookupAsWritten(clouds, key, fetch).result == Lookup(clouds, key, fetch)
    ensures LookupAsWritten(clouds, key, fetch) == SelfDeadlock ==>
              key !in clouds && fetch.Fetched? && |fetch.values| == 1 && fetch.values[0].Some? &&
              Lookup(clouds, key, fetch) ==
                GetResult(fetch.values[0].value, true, clouds[key := fetch.values[0].value])
  {
  }

  // ---------------------------------------------------------------------------------------
  // Load

  /** One key-value pair of the listing, with its value decoded. */
  datatype Entry = Entry(key: string, value: Option<Cloud>)

  /** What the backing store returned for the prefix listing. */
  datatype Listing = ListFailed | Listed(entries: seq<Entry>)

  /**
   * How `Load` ended: success, one of its two errors, or the runtime panic of indexing the
   * third part of a key that has fewer than three.
   */
  datatype LoadOutcome = Loaded | ListError | DecodeError | IndexPanic

  datatype LoadResult = LoadResult(clouds: map<string, Cloud>, outcome: LoadOutcome)

  /** `Set` guarded by the provider filter. */
  function Admit(clouds: map<string, Cloud>, id: string, cloud: Cloud): map<string, Cloud>
  {
    if cloud.provider == ManoType then clouds[id := cloud] else clouds
  }

  /** The loop of `Load` over the listed entries, in order, stopping at the first failure. */
  function LoadFrom(clouds: map<string, Cloud>, entries: seq<Entry>): LoadResult
    decreases |entries|
  {
    if entries == [] then LoadResult(clouds, Loaded)
    else match KeyId(entries[0].key)
      case None => LoadResult(clouds, IndexPanic)
      case Some(id) =>
        match entries[0].value
        case None => LoadResult(clouds, DecodeError)
        case Some(cloud) => LoadFrom(Admit(clouds, id, cloud), entries[1..])
  }

  /** `Load` on what the backing store listed. */
  function LoadAll(clouds: map<string, Cloud>, listing: Listing): LoadResult
  {
    match listing
    case ListFailed => LoadResult(clouds, ListError)
    case Listed(entries) => LoadFrom(clouds, entries)
  }

  /** An entry `Load` gets past: its key has an ID and its value decodes. */
  predicate WellFormed(e: Entry)
  {
    KeyId(e.key).Some? && e.value.Some?
  }

  /** The entry is an OpenSourceMano record stored under the ID `id`. */
  predicate Admits(e: Entry, id: string)
  {
    WellFormed(e) && KeyId(e.key) == Some(id) && e.value.value.provider == ManoType
  }

  /** Reference definition: the record of the last entry stored under `id`, if there is one. */
  function LastAdmitted(entries: seq<Entry>, id: string): Option<Cloud>
    decreases |entries|
  {
    if entries == [] then None
    else match LastAdmitted(entries[1..], id)
      case Some(c) => Some(c)
      case None => if Admits(entries[0], id) then Some(entries[0].value.value) else None
  }

  /** `LastAdmitted` picks the entry after which no entry is stored under the same ID. */
  lemma {:induction false} LastAdmittedIsLast(entries: seq<Entry>, id: string)
    ensures LastAdmitted(entries, id).None? <==> forall i :: 0 <= i < |entries| ==> !Admits(entries[i], id)
    ensures LastAdmitted(entries, id).Some? ==>
              exists i :: 0 <= i < |entries| && Admits(entries[i], id) &&
                          entries[i].value.value == LastAdmitted(entries, id).value &&
                          forall j :: i < j < |entries| ==> !Admits(entries[j], id)
    decreases |entries|
  {
    if entries != [] {
      LastAdmittedIsLast(entries[1..], id);
      var rest := entries[1..];
      assert forall i :: 1 <= i < |entries| ==> entries[i] == rest[i - 1];
      if LastAdmitted(rest, id).Some? {
        var i :| 0 <= i < |rest| && Admits(rest[i], id) &&
                 rest[i].value.value == LastAdmitted(rest, id).value &&
                 forall j :: i < j < |rest| ==> !Admits(rest[j], id);
        assert Admits(entries[i + 1], id);
        assert forall j :: i + 1 < j < |entries| ==> !Admits(entries[j], id) by {
          forall j | i + 1 < j < |entries| ensures !Admits(entries[j], id) {
            assert entries[j] == rest[j - 1];
          }
        }
      }
    }
  }

  function Find(clouds: map<string, Cloud>, id: string): Option<Cloud>
  {
    if id in clouds then Some(clouds[id]) else None
  }

  /** Reference definition of the cache after a successful `Load`, key by key. */
  function Expected(clouds: map<string, Cloud>, entries: seq<Entry>, id: string): Option<Cloud>
  {
    match LastAdmitted(entries, id)
    case Some(c) => Some(c)
    case None => Find(clouds, id)
  }

  /** `Load` succeeds exactly when every entry has an ID and decodes; it never reports a list error. */
  lemma {:induction false} LoadSucceedsIff(clouds: map<string, Cloud>, entries: seq<Entry>)
    ensures LoadFrom(clouds, entries).outcome == Loaded <==>
              forall i :: 0 <= i < |entries| ==> WellFormed(entries[i])
    ensures LoadFrom(clouds, entries).outcome != ListError
    decreases |entries|
  {
    if entries != [] && WellFormed(entries[0]) {
      var e := entries[0];
      LoadSucceedsIff(Admit(clouds, KeyId(e.key).value, e.value.value), entries[1..]);
      assert forall i :: 1 <= i < |entries| ==> entries[i] == entries[1..][i - 1];
    }
  }

  /**
   * After a successful `Load` each ID holds the record of the last listed OpenSourceMano entry
   * with that ID; every other ID keeps what the cache held before, absent ones stay absent.
   */
  lemma {:induction false} LoadContents(clouds: map<string, Cloud>, entries: seq<Entry>)
    requires forall i :: 0 <= i < |entries| ==> WellFormed(entries[i])
    ensures forall id :: Find(LoadFrom(clouds, entries).clouds, id) == Expected(clouds, entries, id)
    decreases |entries|
  {
    if entries != [] {
      var e := entries[0];
      var next := Admit(clouds, KeyId(e.key).value, e.value.value);
      assert forall i :: 1 <= i < |entries| ==> entries[1..][i - 1] == entries[i];
      LoadContents(next, entries[1..]);
    }
  }

  /** `Load` never removes a cached ID, whether it succeeds or stops early. */
  lemma {:induction false} LoadKeepsCached(clouds: map<string, Cloud>, entries: seq<Entry>)
    ensures clouds.Keys <= LoadFrom(clouds, entries).clouds.Keys
    decreases |entries|
  {
    if entries != [] && WellFormed(entries[0]) {
      var e := entries[0];
      LoadKeepsCached(Admit(clouds, KeyId(e.key).value, e.value.value), entries[1..]);
    }
  }

  /** Loading a well-formed prefix first and the rest afterwards is loading the whole listing. */
  lemma {:induction false} LoadPrefix(clouds: map<string, Cloud>, prefix: seq<Entry>, rest: seq<Entry>)
    requires forall i :: 0 <= i < |prefix| ==> WellFormed(prefix[i])
    ensures LoadFrom(clouds, prefix).outcome == Loaded
    ensures LoadFrom(clouds, prefix + rest) == LoadFrom(LoadFrom(clouds, prefix).clouds, rest)
    decreases |prefix|
  {
    if prefix == [] {
      assert prefix + rest == rest;
    } else {
      var e := prefix[0];
      assert (prefix + rest)[0] == e;
      assert (prefix + rest)[1..] == prefix[1..] + rest;
      LoadPrefix(Admit(clouds, KeyId(e.key).value, e.value.value), prefix[1..], rest);
    }
  }

  /**
   * A value that fails to decode at entry `i` makes `Load` report a decode error, with the
   * OpenSourceMano entries before `i` cached; a key without ID there makes it panic likewise.
   */
  lemma LoadStopsAtFirstBadEntry(clouds: map<string, Cloud>, entries: seq<Entry>, i: nat)
    requires i < |entries| && !WellFormed(entries[i])
    requires forall j :: 0 <= j < i ==> WellFormed(entries[j])
    ensures LoadFrom(clouds, entries) ==
              LoadResult(LoadFrom(clouds, entries[..i]).clouds,
                         if KeyId(entries[i].key).None? then IndexPanic else DecodeError)
  {
    assert entries == entries[..i] + entries[i..];
    LoadPrefix(clouds, entries[..i], entries[i..]);
  }

  /** A failed listing reports an error and leaves the cache as it was. */
  lemma ListErrorChangesNothing(clouds: map<string, Cloud>)
    ensures LoadAll(clouds, ListFailed) == LoadResult(clouds, ListError)
  {
  }

  // ---------------------------------------------------------------------------------------
  // The store object

  /** `Store`: the cache of cloud records keyed by cloud ID. */
  class Store {
    var clouds: map<string, Cloud>

    /** `InitStore`: an empty cache. */
    constructor ()
      ensures clouds == map[]
    {
      clouds := map[];
    }

    method Get(key: string, fetch: Fetch) returns (value: Cloud, found: bool)
      modifies this
      ensures GetResult(value, found, clouds) == Lookup(old(clouds), key, fetch)
    {
      if key in clouds {
        return clouds[key], true;
      }
      value, found := ZeroCloud, false;
      if fetch.FetchFailed? || |fetch.values| != 1 || fetch.values[0].None? {
        return;
      }
      var cloud := fetch.values[0].value;
      if cloud.provider == ManoType {
        Set(key, cloud);
        value, found := cloud, true;
      }
    }

    method Set(key: string, value: Cloud)
      modifies this
      ensures clouds == old(clouds)[key := value]
      ensures forall k :: k != key ==> Find(clouds, k) == Find(old(clouds), k)
    {
      clouds := clouds[key := value];
    }

    method Delete(key: string)
      modifies this
      ensures clouds == old(clouds) - {key}
      ensures key !in clouds
      ensures forall k :: k != key ==> Find(clouds, k) == Find(old(clouds), k)
      ensures key !in old(clouds) ==> clouds == old(clouds)
    {
      clouds := clouds - {key};
    }

    method Load(listing: Listing) returns (outcome: LoadOutcome)
      modifies this
      ensures LoadResult(clouds, outcome) == LoadAll(old(clouds), listing)
    {
      if listing.ListFailed? {
        return ListError;
      }
      var entries := listing.entries;
      var i := 0;
      while i < |entries|
        invariant 0 <= i <= |entries|
        invariant LoadFrom(clouds, entries[i..]) == LoadFrom(old(clouds), entries)
      {
        assert entries[i..][0] == entries[i] && entries[i..][1..] == entries[i + 1..];
        var parts := Split(entries[i].key, '/');
        if |parts| <= 2 {
          return IndexPanic;
        }
        var id := parts[2];
        if entries[i].value.None? {
          return DecodeError;
        }
        var cloud := entries[i].value.value;
        if cloud.provider == ManoType {
          Set(id, cloud);
        }
        i := i + 1;
      }
      return Loaded;
    }
  }
}
