/**
 The registry client and the publication run of scripts/release_publish.py.

 `exchanges` logs every HTTP request with its reply and what the result file could then read;
 `versions` logs every result file ever renamed into place, with the exchanges before it. Both only
 grow, so a claim about all their entries holds wherever a crash cuts the run.
 */
module RegistryClient {
  import opened Prelude
  import opened Durable
  import opened ReleasePublish

  const ATTEMPTS := 4

  datatype Kind = MetadataOf | IndexOf | PayloadOf | Upload

  datatype Request = Request(kind: Kind, package: Package)

  datatype IndexEntry = IndexEntry(name: string, version: string, yanked: bool, checksum: string)

  /** A decoded response body. */
  datatype Body =
    | Metadata(identityMatches: bool, checksum: string)
    | Index(entries: seq<IndexEntry>)
    | Payload(size: nat, sha: string, integrityMatches: bool)
    | Receipt(errors: bool)

  datatype Reply = Good(body: Body) | Oversized | Status(code: nat) | Broken

  datatype Error = Authentication | Http(code: nat) | Transport | Mismatch | Permanent | Refused(refusal: Refusal)
                 | Missing

  datatype Exchange = Exchange(request: Request, reply: Reply, disk: Disk<Option<ResultFile>>)

  datatype Version = Version(file: ResultFile, after: nat)

  predicate Transient(code: nat) {
    code in {408, 429, 500, 502, 503, 504}
  }

  /** The downloaded bytes are the prepared ones; npm also advertises their integrity. */
  predicate Delivers(reply: Reply, p: Package) {
    && reply.Good? && reply.body.Payload? && reply.body.size == p.size && reply.body.sha == p.sha
    && (p.registry.Crates? || reply.body.integrityMatches)
  }

  /** The prepared bytes of `p` were downloaded at index `from` or later. */
  ghost predicate Observed(exchanges: seq<Exchange>, from: nat, p: Package) {
    exists k :: from <= k < |exchanges| && exchanges[k].request == Request(PayloadOf, p)
                && Delivers(exchanges[k].reply, p)
  }

  /** The crate index has one entry of this version: the prepared crate, not yanked. */
  ghost predicate Lists(reply: Reply, p: Package) {
    reply.Good? && reply.body.Index? &&
    var entries := reply.body.entries;
    exists i :: 0 <= i < |entries| && entries[i] == IndexEntry(p.name, p.version, false, p.sha)
                && forall j :: 0 <= j < |entries| && entries[j].version == p.version ==> j == i
  }

  ghost predicate Indexed(exchanges: seq<Exchange>, from: nat, p: Package) {
    exists k :: from <= k < |exchanges| && exchanges[k].request == Request(IndexOf, p) && Lists(exchanges[k].reply, p)
  }

  /** The registry's metadata is of this package and version, unyanked; for a crate it has the prepared checksum. */
  predicate Describes(reply: Reply, p: Package) {
    && reply.Good? && reply.body.Metadata? && reply.body.identityMatches
    && (p.registry.Crates? ==> reply.body.checksum == p.sha)
  }

  ghost predicate Described(exchanges: seq<Exchange>, from: nat, p: Package) {
    exists k :: from <= k < |exchanges| && exchanges[k].request == Request(MetadataOf, p)
                && Describes(exchanges[k].reply, p)
  }

  /** Everything that `remote_digest` wants to see was seen at index `from` or later. */
  ghost predicate Confirmed(exchanges: seq<Exchange>, from: nat, p: Package) {
    Described(exchanges, from, p) && (p.registry.Crates? ==> Indexed(exchanges, from, p))
    && Observed(exchanges, from, p)
  }

  /** The reply that a registry with the prepared package gives; before that it may know no such version. */
  ghost predicate Expected(e: Exchange) {
    match e.request.kind
    case MetadataOf => Describes(e.reply, e.request.package) || Unknown(e)
    case IndexOf => Lists(e.reply, e.request.package)
    case PayloadOf => Delivers(e.reply, e.request.package)
    case Upload => e.reply == Good(Receipt(false))
  }

  /** The registry knows no such version. */
  predicate Unknown(e: Exchange) {
    e.request.kind.MetadataOf? && e.reply == Status(404)
  }

  /** A failure after which a request may be tried again. */
  predicate Passing(reply: Reply) {
    reply.Broken? || (reply.Status? && Transient(reply.code))
  }

  /** The registry does not show the version yet. */
  predicate Missed(e: Exchange) {
    match e.request.kind
    case MetadataOf => Unknown(e)
    case IndexOf =>
      || e.reply == Status(404)
      || (e.reply.Good? && e.reply.body.Index? && Listed(e.reply.body.entries, e.request.package.version) == [])
    case PayloadOf => false
    case Upload => false
  }

  /** A reply that no further attempt can mend; an upload that another one came before is no such failure. */
  ghost predicate Wrong(e: Exchange) {
    && !Expected(e) && !Passing(e.reply) && !Missed(e)
    && !(e.request.kind.Upload? && e.reply in {Status(400), Status(409)})
  }

  /** Every attempt of one GET failed, the last of them at `k`. */
  predicate Spent(exchanges: seq<Exchange>, from: nat, p: Package, k: nat) {
    && from + ATTEMPTS - 1 <= k < |exchanges| && exchanges[k].request.package == p
    && !exchanges[k].request.kind.Upload?
    && forall j :: k - ATTEMPTS < j <= k ==> exchanges[j].request == exchanges[k].request && Passing(exchanges[j].reply)
  }

  /** At these places, one after the other, the registry was asked for the version and did not show it. */
  predicate Misses(exchanges: seq<Exchange>, from: nat, p: Package, kind: Kind, places: seq<nat>) {
    && (forall i, j :: 0 <= i < j < |places| ==> places[i] < places[j])
    && forall i :: 0 <= i < |places| ==> from <= places[i] < |exchanges| && Missed(exchanges[places[i]])
                                         && exchanges[places[i]].request == Request(kind, p)
  }

  ghost predicate NeverShown(exchanges: seq<Exchange>, from: nat, p: Package, kind: Kind) {
    exists places :: |places| == ATTEMPTS && Misses(exchanges, from, p, kind, places)
  }

  /** A reply is wrong, a request failed at every attempt, or the index never listed the version. */
  ghost predicate Unexpected(exchanges: seq<Exchange>, from: nat, p: Package) {
    || (exists k :: from <= k < |exchanges| && exchanges[k].request.package == p && Wrong(exchanges[k]))
    || (exists k: nat :: Spent(exchanges, from, p, k))
    || NeverShown(exchanges, from, p, IndexOf)
  }

  lemma MissesLonger(before: seq<Exchange>, after: seq<Exchange>, from: nat, later: nat, p: Package, kind: Kind,
                     places: seq<nat>)
    requires before <= after && from <= later && Misses(before, later, p, kind, places)
    ensures Misses(after, from, p, kind, places)
  {
  }

  lemma UnexpectedLonger(before: seq<Exchange>, after: seq<Exchange>, from: nat, later: nat, p: Package)
    requires before <= after && from <= later && Unexpected(before, later, p)
    ensures Unexpected(after, from, p)
  {
    if k: nat :| Spent(before, later, p, k) {
      assert Spent(after, from, p, k);
    } else if NeverShown(before, later, p, IndexOf) {
      var places :| |places| == ATTEMPTS && Misses(before, later, p, IndexOf, places);
      MissesLonger(before, after, from, later, p, IndexOf, places);
    }
  }

  /** The registry knows no such version although it was uploaded, however often it is asked. */
  ghost predicate Vanished(exchanges: seq<Exchange>, from: nat, p: Package) {
    exists j :: from <= j < |exchanges| && exchanges[j].request == Request(Upload, p)
                && NeverShown(exchanges, j, p, MetadataOf)
  }

  ghost predicate Absent(exchanges: seq<Exchange>, from: nat, p: Package) {
    exists k :: from <= k < |exchanges| && exchanges[k].request.package == p && Unknown(exchanges[k])
  }

  /** What a request comes to, from its last reply. */
  predicate Answers(request: Request, reply: Reply, r: Result<Option<Body>, Error>) {
    match reply
    case Good(body) => r == Ok(Some(body))
    case Oversized => r == Err(Permanent)
    case Broken => r == Err(Transport)
    case Status(code) =>
      if code in {401, 403} then r == Err(Authentication)
      else if code == 404 && !request.kind.Upload? then r == Ok(None)
      else if Transient(code) then r == Err(Transport)
      else r == Err(Http(code))
  }

  lemma StillAbsent(exchanges: seq<Exchange>, from: nat, sent: nat, p: Package)
    requires from < sent <= |exchanges| && exchanges[sent - 1].request == Request(Upload, p)
    requires Unexpected(exchanges, sent, p) || NeverShown(exchanges, sent, p, MetadataOf)
    ensures Unexpected(exchanges, from, p) || Vanished(exchanges, from, p)
  {
    if Unexpected(exchanges, sent, p) {
      UnexpectedLonger(exchanges, exchanges, from, sent, p);
    } else {
      var places :| |places| == ATTEMPTS && Misses(exchanges, sent, p, MetadataOf, places);
      MissesLonger(exchanges, exchanges, sent - 1, sent, p, MetadataOf, places);
    }
  }

  /** What keeps a package from being verified: a reply, or else its payload or the missing token. */
  ghost predicate Lapse(exchanges: seq<Exchange>, from: nat, p: Package, resumed: bool, payloadMatches: bool,
                        token: bool)
  {
    || Unexpected(exchanges, from, p)
    || if resumed then Absent(exchanges, from, p) else !payloadMatches || !token || Vanished(exchanges, from, p)
  }

  /** Package `i` was not verified; what was resumed or selected before it is kept, and it alone is not. */
  ghost predicate HaltsAt(exchanges: seq<Exchange>, from: nat, file: Disk<Option<ResultFile>>, packages: seq<Package>,
                          binding: string, resumed: set<string>, selected: set<ReleasePublish.Registry>,
                          payloads: seq<bool>, token: bool, i: nat)
    requires |payloads| == |packages| && i < |packages|
  {
    && Lapse(exchanges, from, packages[i], packages[i].name in resumed, payloads[i], token)
    && file.Synced() && file.seen.Some?
    && file.seen.value.binding == binding && file.seen.value.status.Partial?
    && Sublist(file.seen.value.packages, packages)
    && forall j :: 0 <= j < |packages| ==>
         (RecordOf(packages[j]) in file.seen.value.packages
          <==> j != i && (packages[j].name in resumed || (j < i && packages[j].registry in selected)))
  }

  ghost predicate Halts(exchanges: seq<Exchange>, from: nat, file: Disk<Option<ResultFile>>, packages: seq<Package>,
                        binding: string, resumed: set<string>, selected: set<ReleasePublish.Registry>,
                        payloads: seq<bool>, token: bool)
    requires |payloads| == |packages|
  {
    exists i :: 0 <= i < |packages|
                && HaltsAt(exchanges, from, file, packages, binding, resumed, selected, payloads, token, i)
  }

  /** The packages that a result file lists. */
  function Resumed(file: Option<ResultFile>): set<string> {
    NamesOf(if file.None? then [] else file.value.packages)
  }

  function NamesOf(records: seq<Record>): set<string> {
    set r | r in records :: r.name
  }

  /** What a successful run leaves: what was selected or resumed, and complete exactly if that is everything. */
  ghost predicate Ends(result: ResultFile, packages: seq<Package>, binding: string, resumed: set<string>,
                       selected: set<ReleasePublish.Registry>)
  {
    && result.binding == binding && Sublist(result.packages, packages)
    && (forall i :: 0 <= i < |packages| ==>
          (RecordOf(packages[i]) in result.packages
           <==> packages[i].registry in selected || packages[i].name in resumed))
    && (result.status.PublicationComplete?
        <==> forall i :: 0 <= i < |packages| ==> RecordOf(packages[i]) in result.packages)
  }

  lemma ComposedEnds(packages: seq<Package>, done: set<string>, binding: string, resumed: set<string>,
                     selected: set<ReleasePublish.Registry>, result: ResultFile)
    requires UniqueNames(packages)
    requires forall i :: 0 <= i < |packages| ==>
               (packages[i].name in done <==> packages[i].registry in selected || packages[i].name in resumed)
    requires result == ResultFile(binding, if |Compose(packages, done)| == |packages| then PublicationComplete
                                    else Partial,
                                  Compose(packages, done))
    ensures Ends(result, packages, binding, resumed, selected)
  {
    ComposeIsSublist(packages, done);
    ComposeComplete(packages, done);
    forall i | 0 <= i < |packages| ensures RecordOf(packages[i]) in result.packages <==> packages[i].name in done {
      ComposeMember(packages, done, i);
    }
  }

  /** An admissible bundle, and no result file or one that can be resumed. */
  ghost predicate Startable(packages: seq<Package>, locals: seq<Local>, binding: string, file: Option<ResultFile>)
    requires |locals| == |packages|
  {
    && UniqueNames(packages)
    && (forall i :: 0 <= i < |packages| ==> Admissible(packages, locals, i))
    && (file.Some? ==> file.value.binding == binding && Sublist(file.value.packages, packages))
  }

  /** The first `i` packages are dealt with, and what is in `done` of them was observed. */
  ghost predicate Passed(exchanges: seq<Exchange>, from: nat, packages: seq<Package>, i: nat, done: set<string>,
                         resumed: set<string>, selected: set<ReleasePublish.Registry>)
    requires i <= |packages|
  {
    && InFlightAbsent(exchanges, from)
    && (forall j :: 0 <= j < i && packages[j].name in done ==> Observed(exchanges, from, packages[j]))
    && (forall j :: 0 <= j < |packages| ==>
          (packages[j].name in done <==> (j < i && packages[j].registry in selected) || packages[j].name in resumed))
    && ({Crates, Npm} <= selected ==> UploadsFollow(exchanges, from, packages))
  }

  lemma PassedNext(packages: seq<Package>, locals: seq<Local>, i: nat, done: set<string>, binding: string,
                   before: seq<Exchange>, after: seq<Exchange>, from: nat, resumed: set<string>,
                   selected: set<ReleasePublish.Registry>)
    requires UniqueNames(packages) && |locals| == |packages| && i < |packages|
    requires forall j :: 0 <= j < |packages| ==> Admissible(packages, locals, j)
    requires Passed(before, from, packages, i, done, resumed, selected) && before <= after && from <= |before|
    requires packages[i].registry in selected || packages[i].name in done
    requires Only(after, |before|, packages[i],
                  Stored(Some(ResultFile(binding, Partial, Compose(packages, done - {packages[i].name})))))
    ensures InFlightAbsent(after, from)
    ensures {Crates, Npm} <= selected ==> UploadsFollow(after, from, packages)
    ensures Observed(after, |before|, packages[i]) ==>
              Passed(after, from, packages, i + 1, done + {packages[i].name}, resumed, selected)
  {
    AbsentWhileVerified(packages, i, done, binding, before, after, from);
    if {Crates, Npm} <= selected {
      AllSelected(packages, locals, selected);
      UploadFollows(packages, locals, i, before, after, from);
    }
    ObservedLater(before, after, from);
  }

  lemma LapseEarlier(exchanges: seq<Exchange>, from: nat, later: nat, p: Package, resumed: bool, payloadMatches: bool,
                     token: bool)
    requires from <= later && Lapse(exchanges, later, p, resumed, payloadMatches, token)
    ensures Lapse(exchanges, from, p, resumed, payloadMatches, token)
  {
    if Unexpected(exchanges, later, p) { UnexpectedLonger(exchanges, exchanges, from, later, p); }
  }

  lemma HaltsHere(exchanges: seq<Exchange>, from: nat, later: nat, file: Disk<Option<ResultFile>>,
                  packages: seq<Package>, i: nat, binding: string, done: set<string>, resumed: set<string>,
                  selected: set<ReleasePublish.Registry>, payloads: seq<bool>, token: bool)
    requires UniqueNames(packages) && |payloads| == |packages| && i < |packages| && from <= later
    requires Lapse(exchanges, later, packages[i], packages[i].name in resumed, payloads[i], token)
    requires file == Stored(Some(ResultFile(binding, Partial, Compose(packages, done - {packages[i].name}))))
    requires forall j :: 0 <= j < |packages| ==>
               (packages[j].name in done
                <==> (j < i && packages[j].registry in selected) || packages[j].name in resumed)
    ensures Halts(exchanges, from, file, packages, binding, resumed, selected, payloads, token)
  {
    ComposeIsSublist(packages, done - {packages[i].name});
    forall j | 0 <= j < |packages|
      ensures RecordOf(packages[j]) in file.seen.value.packages <==> packages[j].name in done - {packages[i].name}
    {
      ComposeMember(packages, done - {packages[i].name}, j);
    }
    LapseEarlier(exchanges, from, later, packages[i], packages[i].name in resumed, payloads[i], token);
    assert HaltsAt(exchanges, from, file, packages, binding, resumed, selected, payloads, token, i);
  }

  lemma {:induction false} ListedAlone(entries: seq<IndexEntry>, i: nat)
    requires i < |entries|
    requires forall j :: 0 <= j < |entries| && entries[j].version == entries[i].version ==> j == i
    ensures Listed(entries, entries[i].version) == [entries[i]]
    decreases |entries|
  {
    var rest := entries[1..];
    assert forall j :: 1 <= j < |entries| ==> entries[j] == rest[j-1];
    if i == 0 {
      OneListed(rest, entries[0].version);
    } else {
      ListedAlone(rest, i - 1);
    }
  }

  /** An index that lists the package passes the checks on the found entries. */
  lemma ListsIsListed(entries: seq<IndexEntry>, p: Package)
    requires Lists(Good(Index(entries)), p)
    ensures Listed(entries, p.version) == [IndexEntry(p.name, p.version, false, p.sha)]
  {
    var i :| 0 <= i < |entries| && entries[i] == IndexEntry(p.name, p.version, false, p.sha)
             && forall j :: 0 <= j < |entries| && entries[j].version == p.version ==> j == i;
    ListedAlone(entries, i);
  }

  lemma {:induction false} OneListed(entries: seq<IndexEntry>, version: string)
    ensures Listed(entries, version) == [] <==> forall j :: 0 <= j < |entries| ==> entries[j].version != version
    ensures |Listed(entries, version)| == 1 ==>
              exists i :: 0 <= i < |entries| && entries[i] == Listed(entries, version)[0]
                          && entries[i].version == version
                          && forall j :: 0 <= j < |entries| && entries[j].version == version ==> j == i
    decreases |entries|
  {
    if entries != [] {
      var rest := entries[1..];
      OneListed(rest, version);
      assert forall j :: 1 <= j < |entries| ==> entries[j] == rest[j-1];
      if entries[0].version == version {
        assert entries[0] == Listed(entries, version)[0];
      } else if |Listed(rest, version)| == 1 {
        var i :| 0 <= i < |rest| && rest[i] == Listed(rest, version)[0] && rest[i].version == version
                 && forall j :: 0 <= j < |rest| && rest[j].version == version ==> j == i;
        assert entries[i + 1] == Listed(entries, version)[0];
      }
    }
  }

  /** From index `from` on there are only requests about `p`, made while the file read `disk`. */
  ghost predicate Only(exchanges: seq<Exchange>, from: nat, p: Package, disk: Disk<Option<ResultFile>>) {
    forall k :: from <= k < |exchanges| ==> exchanges[k].request.package == p && exchanges[k].disk == disk
  }

  ghost function Uploads(exchanges: seq<Exchange>): nat {
    if exchanges == [] then 0
    else Uploads(exchanges[..|exchanges|-1]) + if exchanges[|exchanges|-1].request.kind.Upload? then 1 else 0
  }

  /** HTTP requests of one `remote_digest`: metadata, crate index polling, payload. */
  function DigestRequests(p: Package): nat {
    if p.registry.Crates? then ATTEMPTS + ATTEMPTS * ATTEMPTS + ATTEMPTS else ATTEMPTS + ATTEMPTS
  }

  function Attempts(request: Request): nat {
    if request.kind.Upload? then 1 else ATTEMPTS
  }

  /** One request, tried again only after a transient failure, and then until the attempts are used up. */
  predicate Asked(before: seq<Exchange>, after: seq<Exchange>, request: Request, disk: Disk<Option<ResultFile>>) {
    && before <= after && |before| < |after| <= |before| + Attempts(request)
    && (forall k :: |before| <= k < |after| ==> after[k].request == request && after[k].disk == disk)
    && (forall k :: |before| <= k < |after| - 1 ==> Passing(after[k].reply))
    && (Passing(after[|after|-1].reply) ==> |after| == |before| + Attempts(request))
  }

  lemma AskedInVain(before: seq<Exchange>, after: seq<Exchange>, request: Request, disk: Disk<Option<ResultFile>>,
                    r: Result<Option<Body>, Error>)
    requires Asked(before, after, request, disk) && Answers(request, after[|after|-1].reply, r)
    requires r.Err? && !request.kind.Upload?
    ensures Unexpected(after, |before|, request.package)
  {
    var last := |after| - 1;
    if Passing(after[last].reply) {
      assert Spent(after, |before|, request.package, last);
    } else {
      assert Wrong(after[last]);
    }
  }

  class Registry {
    var file: Disk<Option<ResultFile>>
    var replies: seq<Reply>
    var next: nat
    ghost var exchanges: seq<Exchange>
    ghost var versions: seq<Version>

    constructor (file: Disk<Option<ResultFile>>, replies: seq<Reply>)
      ensures this.file == file && exchanges == [] && versions == []
    {
      this.file, this.replies, next, exchanges, versions := file, replies, 0, [], [];
    }

    method Send(request: Request) returns (reply: Reply)
      modifies this`next, this`exchanges
      ensures exchanges == old(exchanges) + [Exchange(request, reply, file)]
      ensures Uploads(exchanges) == Uploads(old(exchanges)) + if request.kind.Upload? then 1 else 0
    {
      reply := if next < |replies| then replies[next] else Broken;
      next := next + 1;
      exchanges := exchanges + [Exchange(request, reply, file)];
    }

    /** `request`: a GET is retried on transient failures, a PUT is never replayed. */
    method Ask(request: Request) returns (r: Result<Option<Body>, Error>)
      modifies this`next, this`exchanges
      ensures Asked(old(exchanges), exchanges, request, file)
      ensures Answers(request, exchanges[|exchanges|-1].reply, r)
      ensures Uploads(exchanges) <= Uploads(old(exchanges)) + if request.kind.Upload? then 1 else 0
      ensures Uploads(old(exchanges)) <= Uploads(exchanges)
      ensures r.Err? && !request.kind.Upload? ==> Unexpected(exchanges, |old(exchanges)|, request.package)
    {
      r := Try(request);
      if r.Err? && !request.kind.Upload? { AskedInVain(old(exchanges), exchanges, request, file, r); }
    }

    method Try(request: Request) returns (r: Result<Option<Body>, Error>)
      modifies this`next, this`exchanges
      ensures Asked(old(exchanges), exchanges, request, file)
      ensures Answers(request, exchanges[|exchanges|-1].reply, r)
      ensures Uploads(exchanges) <= Uploads(old(exchanges)) + if request.kind.Upload? then 1 else 0
      ensures Uploads(old(exchanges)) <= Uploads(exchanges)
    {
      var attempts := Attempts(request);
      for attempt := 0 to attempts
        invariant old(exchanges) <= exchanges && |exchanges| == |old(exchanges)| + attempt
        invariant forall k :: |old(exchanges)| <= k < |exchanges| ==>
                    exchanges[k].request == request && exchanges[k].disk == file && Passing(exchanges[k].reply)
        invariant Uploads(exchanges) == Uploads(old(exchanges)) + if request.kind.Upload? then attempt else 0
        invariant attempt > 0 ==> Answers(request, exchanges[|exchanges|-1].reply, Err(Transport))
      {
        var reply := Send(request);
        assert exchanges[|exchanges|-1].reply == reply;
        match reply
        case Good(body) => return Ok(Some(body));
        case Oversized => return Err(Permanent);
        case Status(code) =>
          if code == 401 || code == 403 {
            return Err(Authentication);
          }
          if code == 404 && !request.kind.Upload? {
            return Ok(None);
          }
          if !Transient(code) {
            return Err(Http(code));
          }
        case Broken =>
      }
      r := Err(Transport);
    }

    /** `crate_index`: polls until the version is listed, once, unyanked and with its checksum. */
    method CrateIndex(p: Package) returns (error: Option<Error>)
      modifies this`next, this`exchanges
      ensures old(exchanges) <= exchanges && Only(exchanges, |old(exchanges)|, p, file)
      ensures |exchanges| <= |old(exchanges)| + ATTEMPTS * ATTEMPTS && Uploads(exchanges) == Uploads(old(exchanges))
      ensures error.None? ==> Indexed(exchanges, |old(exchanges)|, p)
      ensures error.Some? ==> Unexpected(exchanges, |old(exchanges)|, p)
    {
      ghost var places: seq<nat> := [];
      for attempt := 0 to ATTEMPTS
        invariant old(exchanges) <= exchanges && Only(exchanges, |old(exchanges)|, p, file)
        invariant |exchanges| <= |old(exchanges)| + attempt * ATTEMPTS && Uploads(exchanges) == Uploads(old(exchanges))
        invariant |places| == attempt && Misses(exchanges, |old(exchanges)|, p, IndexOf, places)
      {
        ghost var before := exchanges;
        var r := Ask(Request(IndexOf, p));
        if r.Err? {
          UnexpectedLonger(exchanges, exchanges, |old(exchanges)|, |before|, p);
          return Some(r.error);
        }
        ghost var last := exchanges[|exchanges|-1];
        assert Wrong(last) ==> Unexpected(exchanges, |old(exchanges)|, p);
        if r.value.Some? {
          if !r.value.value.Index? {
            return Some(Permanent);
          }
          if Expected(last) { ListsIsListed(r.value.value.entries, p); }
          var found := Listed(r.value.value.entries, p.version);
          OneListed(r.value.value.entries, p.version);
          if found != [] {
            if |found| != 1 || found[0].name != p.name || found[0].yanked {
              return Some(Permanent);
            }
            return if found[0].checksum == p.sha then None else Some(Mismatch);
          }
        }
        places := places + [|exchanges| - 1];
      }
      error := Some(Transport);
    }

    /** `remote_digest`: the prepared digest after downloading exactly the prepared bytes, or not there. */
    method RemoteDigest(p: Package) returns (r: Result<Option<string>, Error>)
      modifies this`next, this`exchanges
      ensures old(exchanges) <= exchanges && Only(exchanges, |old(exchanges)|, p, file)
      ensures |exchanges| <= |old(exchanges)| + DigestRequests(p) && Uploads(exchanges) == Uploads(old(exchanges))
      ensures r.Ok? && r.value.Some? ==> r.value.value == p.sha && Confirmed(exchanges, |old(exchanges)|, p)
      ensures r.Ok? && r.value.None? ==>
                |exchanges| > |old(exchanges)| && exchanges[|exchanges|-1]
                  == Exchange(Request(MetadataOf, p), Status(404), file)
      ensures r.Err? ==> Unexpected(exchanges, |old(exchanges)|, p)
    {
      var metadata := Ask(Request(MetadataOf, p));
      if metadata.Err? {
        return Err(metadata.error);
      }
      if metadata.value.None? {
        return Ok(None);
      }
      var info := metadata.value.value;
      ghost var asked := |exchanges| - 1;
      assert Wrong(exchanges[asked]) ==> Unexpected(exchanges, |old(exchanges)|, p);
      if !info.Metadata? || !info.identityMatches {
        return Err(Permanent);
      }
      if p.registry.Crates? {
        if info.checksum != p.sha {
          return Err(Mismatch);
        }
        ghost var before := exchanges;
        var error := CrateIndex(p);
        if error.Some? {
          UnexpectedLonger(exchanges, exchanges, |old(exchanges)|, |before|, p);
          return Err(error.value);
        }
      }
      ghost var before := exchanges;
      r := Download(p);
      if r.Err? { UnexpectedLonger(exchanges, exchanges, |old(exchanges)|, |before|, p); }
      assert exchanges[asked].request == Request(MetadataOf, p) && exchanges[asked].reply == Good(info);
    }

    method Download(p: Package) returns (r: Result<Option<string>, Error>)
      modifies this`next, this`exchanges
      ensures old(exchanges) <= exchanges && Only(exchanges, |old(exchanges)|, p, file)
      ensures |exchanges| <= |old(exchanges)| + ATTEMPTS && Uploads(exchanges) == Uploads(old(exchanges))
      ensures r.Ok? ==> r.value == Some(p.sha) && Observed(exchanges, |old(exchanges)|, p)
      ensures r.Err? ==> Unexpected(exchanges, |old(exchanges)|, p)
    {
      var payload := Ask(Request(PayloadOf, p));
      if payload.Err? {
        return Err(payload.error);
      }
      assert Wrong(exchanges[|exchanges|-1]) ==> Unexpected(exchanges, |old(exchanges)|, p);
      if payload.value.None? {
        return Err(Transport);
      }
      if !Delivers(Good(payload.value.value), p) {
        return Err(Mismatch);
      }
      r := Ok(Some(p.sha));
    }

    /** `upload`: at most one PUT; success, or an error that a later download may still clear. */
    method PutPackage(p: Package, payloadMatches: bool, token: bool) returns (error: Option<Error>)
      modifies this`next, this`exchanges
      ensures old(exchanges) <= exchanges && Only(exchanges, |old(exchanges)|, p, file)
      ensures |exchanges| <= |old(exchanges)| + 1
      ensures Uploads(old(exchanges)) <= Uploads(exchanges) <= Uploads(old(exchanges)) + 1
      ensures error.None? || Recoverable(error.value) ==>
                |exchanges| > |old(exchanges)| && exchanges[|exchanges|-1].request == Request(Upload, p)
      ensures error.None? ==> Expected(exchanges[|exchanges|-1])
      ensures error.Some? && !Recoverable(error.value) ==>
                !payloadMatches || !token || Unexpected(exchanges, |old(exchanges)|, p)
    {
      if !payloadMatches {
        return Some(Mismatch);
      }
      if !token {
        return Some(Authentication);
      }
      var r := Ask(Request(Upload, p));
      if r.Err? {
        assert !Recoverable(r.error) ==> Wrong(exchanges[|exchanges|-1]);
        return Some(r.error);
      }
      assert Wrong(exchanges[|exchanges|-1]) ==> Unexpected(exchanges, |old(exchanges)|, p);
      if r.value.None? || !r.value.value.Receipt? || r.value.value.errors {
        return Some(Permanent);
      }
      error := None;
    }

    /**
     `publish`: at most one PUT, never replayed; returns only the prepared digest, after downloading
     the prepared bytes; five digest rounds and the PUT bound its requests.
     */
    method PublishPackage(p: Package, payloadMatches: bool, token: bool) returns (r: Result<string, Error>)
      modifies this`next, this`exchanges
      ensures old(exchanges) <= exchanges && Only(exchanges, |old(exchanges)|, p, file)
      ensures |exchanges| <= |old(exchanges)| + (ATTEMPTS + 1) * DigestRequests(p) + 1
      ensures Uploads(exchanges) <= Uploads(old(exchanges)) + 1
      ensures r.Ok? ==> r.value == p.sha && Observed(exchanges, |old(exchanges)|, p)
      ensures r.Err? ==> Lapse(exchanges, |old(exchanges)|, p, false, payloadMatches, token)
    {
      var existing := RemoteDigest(p);
      if existing.Err? {
        return Err(existing.error);
      }
      if existing.value.Some? {
        return Ok(existing.value.value);
      }
      ghost var known := exchanges;
      var failure := PutPackage(p, payloadMatches, token);
      if failure.Some? && !Recoverable(failure.value) {
        if payloadMatches && token { UnexpectedLonger(exchanges, exchanges, |old(exchanges)|, |known|, p); }
        return Err(failure.value);
      }
      ghost var sent := exchanges;
      r := Poll(p);
      if r.Err? { StillAbsent(exchanges, |old(exchanges)|, |sent|, p); }
      if r == Err(Missing) {
        r := Err(if failure.Some? then failure.value else Transport);
      }
    }

    /** An uncertain upload is reconciled only by downloading what the registry now serves. */
    method Poll(p: Package) returns (r: Result<string, Error>)
      modifies this`next, this`exchanges
      ensures old(exchanges) <= exchanges && Only(exchanges, |old(exchanges)|, p, file)
      ensures |exchanges| <= |old(exchanges)| + ATTEMPTS * DigestRequests(p)
      ensures Uploads(exchanges) == Uploads(old(exchanges))
      ensures r.Ok? ==> r.value == p.sha && Observed(exchanges, |old(exchanges)|, p)
      ensures r.Err? ==>
                Unexpected(exchanges, |old(exchanges)|, p) || NeverShown(exchanges, |old(exchanges)|, p, MetadataOf)
    {
      ghost var places: seq<nat> := [];
      for attempt := 0 to ATTEMPTS
        invariant old(exchanges) <= exchanges && Only(exchanges, |old(exchanges)|, p, file)
        invariant |exchanges| <= |old(exchanges)| + attempt * DigestRequests(p)
        invariant Uploads(exchanges) == Uploads(old(exchanges))
        invariant |places| == attempt && Misses(exchanges, |old(exchanges)|, p, MetadataOf, places)
      {
        ghost var before := exchanges;
        var actual := RemoteDigest(p);
        if actual.Err? {
          UnexpectedLonger(exchanges, exchanges, |old(exchanges)|, |before|, p);
          return Err(actual.error);
        }
        if actual.value.Some? {
          return Ok(actual.value.value);
        }
        places := places + [|exchanges| - 1];
      }
      r := Err(Missing);
    }
  
    // --- The result file --------------------------------------------------------------------

    /** `_save_result`: rename, then sync; the version is logged when it becomes visible. */
    method Save(result: ResultFile)
      modifies this`file, this`versions
      ensures file == Stored(Some(result)) && versions == old(versions) + [Version(result, |exchanges|)]
    {
      file := file.Replace(Some(result));
      versions := versions + [Version(result, |exchanges|)];
      file := file.Sync();
    }

    /** Removes the package from the file, verifies it remotely, and records it again. */
    method VerifyPackage(packages: seq<Package>, i: nat, done: set<string>, binding: string, payloadMatches: bool,
                         token: bool)
      returns (error: Option<Error>)
      requires UniqueNames(packages) && i < |packages|
      modifies this`file, this`versions, this`next, this`exchanges
      ensures old(exchanges) <= exchanges && old(versions) <= versions
      ensures Uploads(exchanges) <= Uploads(old(exchanges)) + 1
      ensures Only(exchanges, |old(exchanges)|, packages[i],
                   Stored(Some(ResultFile(binding, Partial, Compose(packages, done - {packages[i].name})))))
      ensures forall k :: |old(versions)| <= k < |versions| ==> Composed(versions[k].file, packages, binding)
      ensures error.None? ==> Observed(exchanges, |old(exchanges)|, packages[i])
      ensures file == Stored(Some(ResultFile(binding, Partial,
                                             Compose(packages, if error.None? then done + {packages[i].name}
                                                               else done - {packages[i].name}))))
      ensures error.Some? ==>
                Lapse(exchanges, |old(exchanges)|, packages[i], packages[i].name in done, payloadMatches, token)
    {
      var p := packages[i];
      var without := done - {p.name};
      Save(ResultFile(binding, Partial, Compose(packages, without)));
      assert Composed(versions[|old(versions)|].file, packages, binding);
      var actual: Result<string, Error>;
      if p.name in done {
        var again := RemoteDigest(p);
        assert again.Ok? && again.value.None? ==> Unknown(exchanges[|exchanges|-1]);
        actual := if again.Err? then Err(again.error) else if again.value.None? then Err(Missing)
                    else Ok(again.value.value);
      } else {
        actual := PublishPackage(p, payloadMatches, token);
      }
      if actual.Err? {
        return Some(actual.error);
      }
      if actual.value != p.sha {
        return Some(Mismatch);
      }
      assert without + {p.name} == done + {p.name};
      Save(ResultFile(binding, Partial, Compose(packages, without + {p.name})));
      assert Composed(versions[|versions|-1].file, packages, binding);
      error := None;
    }
  
    /** One pass over the manifest: every package skipped or verified anew, in order. */
    method VerifyAll(packages: seq<Package>, locals: seq<Local>, resumed: set<string>, binding: string,
                     selected: set<ReleasePublish.Registry>, payloads: seq<bool>, token: bool)
      returns (error: Option<Error>, done: set<string>)
      requires UniqueNames(packages) && |locals| == |packages| == |payloads| && file.Synced()
      requires forall i :: 0 <= i < |packages| ==> Admissible(packages, locals, i)
      modifies this`file, this`versions, this`next, this`exchanges
      ensures old(exchanges) <= exchanges && old(versions) <= versions
      ensures forall k :: |old(versions)| <= k < |versions| ==> Composed(versions[k].file, packages, binding)
      ensures InFlightAbsent(exchanges, |old(exchanges)|)
      ensures error.None? ==> forall i :: 0 <= i < |packages| && packages[i].name in done ==>
                Observed(exchanges, |old(exchanges)|, packages[i])
      ensures error.None? ==> forall i :: 0 <= i < |packages| ==>
                (packages[i].name in done <==> packages[i].registry in selected || packages[i].name in resumed)
      ensures {Crates, Npm} <= selected ==> UploadsFollow(exchanges, |old(exchanges)|, packages)
      ensures error.Some? ==>
                Halts(exchanges, |old(exchanges)|, file, packages, binding, resumed, selected, payloads, token)
    {
      done := resumed;
      error := None;
      ghost var start := |exchanges|;
      for i := 0 to |packages|
        invariant error.None? && old(exchanges) <= exchanges && old(versions) <= versions
        invariant forall k :: |old(versions)| <= k < |versions| ==> Composed(versions[k].file, packages, binding)
        invariant Passed(exchanges, start, packages, i, done, resumed, selected)
      {
        if packages[i].registry in selected || packages[i].name in done {
          ghost var before := exchanges;
          error := VerifyPackage(packages, i, done, binding, payloads[i], token);
          PassedNext(packages, locals, i, done, binding, before, exchanges, start, resumed, selected);
          if error.Some? {
            HaltsHere(exchanges, start, |before|, file, packages, i, binding, done, resumed, selected, payloads, token);
            return;
          }
          done := done + {packages[i].name};
        }
      }
    }

    /** The resumed file must be of this bundle and list an ordered part of its records. */
    method CheckResume(previous: ResultFile, packages: seq<Package>, binding: string) returns (ok: bool)
      requires UniqueNames(packages)
      ensures ok <==> previous.binding == binding && Sublist(previous.packages, packages)
    {
      if previous.binding != binding {
        return false;
      }
      var places: seq<nat> := [];
      for k := 0 to |previous.packages|
        invariant IsPlacement(places, previous.packages[..k], packages)
      {
        var j := IndexOfRecord(previous.packages[k], packages);
        if j == |packages| || (k > 0 && places[k-1] >= j) {
          NotASublist(previous.packages, packages, places, k, j);
          return false;
        }
        assert previous.packages[..k+1] == previous.packages[..k] + [previous.packages[k]];
        places := places + [j];
      }
      assert previous.packages[..|previous.packages|] == previous.packages;
      ok := true;
    }

    static method IndexOfRecord(record: Record, packages: seq<Package>) returns (j: nat)
      ensures j <= |packages| && (j < |packages| ==> RecordOf(packages[j]) == record)
      ensures forall i :: 0 <= i < j ==> RecordOf(packages[i]) != record
    {
      j := 0;
      while j < |packages|
        invariant j <= |packages| && forall i :: 0 <= i < j ==> RecordOf(packages[i]) != record
      {
        if RecordOf(packages[j]) == record {
          return;
        }
        j := j + 1;
      }
    }

    /**
     A publication run, resumed or not. Whatever was on disk and whichever registries are selected:
     every version it writes is an ordered part of the manifest, never lists the package in flight,
     and says complete only after all packages were downloaded and matched in this very run. It fails
     only if it must not start, or for a reply or a payload or a token that keeps a package from being
     verified.
     */
    method PublishBundle(packages: seq<Package>, locals: seq<Local>, binding: string, payloads: seq<bool>,
                         selected: set<ReleasePublish.Registry>, token: bool) returns (error: Option<Error>)
      requires |locals| == |packages| == |payloads|
      modifies this`file, this`versions, this`next, this`exchanges
      ensures old(exchanges) <= exchanges && old(versions) <= versions
      ensures forall k :: |old(versions)| <= k < |versions| ==>
                Lawful(versions[k], exchanges, |old(exchanges)|, packages, binding)
      ensures InFlightAbsent(exchanges, |old(exchanges)|)
      ensures {Crates, Npm} <= selected ==> UploadsFollow(exchanges, |old(exchanges)|, packages)
      ensures error.None? ==> file.Synced() && file.seen.Some?
      ensures error.None? && {Crates, Npm} <= selected ==> file.seen.value.status.PublicationComplete?
      ensures error.None? ==>
                Ends(file.seen.value, packages, binding, Resumed(old(file.seen)), selected)
      ensures error.None? ==> Startable(packages, locals, binding, old(file.seen))
      ensures error.Some? && Startable(packages, locals, binding, old(file.seen)) ==>
                Halts(exchanges, |old(exchanges)|, file, packages, binding, Resumed(old(file.seen)), selected, payloads,
                      token)
    {
      var refusal := PreparePackages(packages, locals);
      if refusal.Some? {
        return Some(Refused(refusal.value));
      }
      var records: seq<Record> := [];
      if file.seen.Some? {
        var ok := CheckResume(file.seen.value, packages, binding);
        if !ok {
          return Some(Permanent);
        }
        records := file.seen.value.packages;
      } else {
        assert IsPlacement([], records, packages);
      }
      error := Run(packages, locals, binding, payloads, selected, token, records);
    }

    method Run(packages: seq<Package>, locals: seq<Local>, binding: string, payloads: seq<bool>,
               selected: set<ReleasePublish.Registry>, token: bool, records: seq<Record>) returns (error: Option<Error>)
      requires |locals| == |packages| == |payloads| && UniqueNames(packages) && Sublist(records, packages)
      requires forall i :: 0 <= i < |packages| ==> Admissible(packages, locals, i)
      modifies this`file, this`versions, this`next, this`exchanges
      ensures old(exchanges) <= exchanges && old(versions) <= versions
      ensures forall k :: |old(versions)| <= k < |versions| ==>
                Lawful(versions[k], exchanges, |old(exchanges)|, packages, binding)
      ensures InFlightAbsent(exchanges, |old(exchanges)|)
      ensures {Crates, Npm} <= selected ==> UploadsFollow(exchanges, |old(exchanges)|, packages)
      ensures error.None? ==> file.Synced() && file.seen.Some?
      ensures error.None? && {Crates, Npm} <= selected ==> file.seen.value.status.PublicationComplete?
      ensures error.None? ==>
                Ends(file.seen.value, packages, binding, NamesOf(records), selected)
      ensures error.Some? ==>
                Halts(exchanges, |old(exchanges)|, file, packages, binding, NamesOf(records), selected, payloads, token)
    {
      ghost var start := |exchanges|;
      Save(ResultFile(binding, Partial, records));
      var resumed := NamesOf(records);
      var done;
      error, done := VerifyAll(packages, locals, resumed, binding, selected, payloads, token);
      forall k | |old(versions)| <= k < |versions| ensures Lawful(versions[k], exchanges, start, packages, binding) {
        if k > |old(versions)| {
          ComposedIsLawful(versions[k], exchanges, start, packages, binding);
        }
      }
      if error.Some? {
        return;
      }
      var listed := Compose(packages, done);
      ComposeIsSublist(packages, done);
      ComposeComplete(packages, done);
      var status := if |listed| == |packages| then PublicationComplete else Partial;
      if {Crates, Npm} <= selected {
        AllSelected(packages, locals, selected);
      }
      ComposedEnds(packages, done, binding, resumed, selected, ResultFile(binding, status, listed));
      Save(ResultFile(binding, status, listed));
      assert exchanges[..|exchanges|] == exchanges;
    }
  }

  /** An ordered part of the manifest; complete only when every package was downloaded since `from`. */
  ghost predicate Lawful(v: Version, exchanges: seq<Exchange>, from: nat, packages: seq<Package>, binding: string) {
    && v.file.binding == binding && Sublist(v.file.packages, packages)
    && (v.file.status.PublicationComplete? ==>
          && |v.file.packages| == |packages| && v.after <= |exchanges|
          && forall i :: 0 <= i < |packages| ==> Observed(exchanges[..v.after], from, packages[i]))
  }

  lemma ComposedIsLawful(v: Version, exchanges: seq<Exchange>, from: nat, packages: seq<Package>, binding: string)
    requires Composed(v.file, packages, binding)
    ensures Lawful(v, exchanges, from, packages, binding)
  {
    var done: set<string> :| v.file == ResultFile(binding, Partial, Compose(packages, done));
    ComposeIsSublist(packages, done);
  }

  lemma AllSelected(packages: seq<Package>, locals: seq<Local>, selected: set<ReleasePublish.Registry>)
    requires |locals| == |packages| && {Crates, Npm} <= selected
    requires forall i :: 0 <= i < |packages| ==> Admissible(packages, locals, i)
    ensures forall i :: 0 <= i < |packages| ==> packages[i].registry in selected
  {
    forall i | 0 <= i < |packages| ensures packages[i].registry in selected {
      assert Admissible(packages, locals, i);
      assert packages[i].registry in {Crates, Npm};
    }
  }

  /** The places found so far are the only ones any ordered placement can use. */
  lemma PlacesAreForced(records: seq<Record>, packages: seq<Package>, places: seq<nat>, other: seq<nat>, k: nat, j: nat)
    requires UniqueNames(packages) && k < |records| && IsPlacement(places, records[..k], packages)
    requires IsPlacement(other, records, packages)
    requires j <= |packages| && (j < |packages| ==> RecordOf(packages[j]) == records[k])
    requires forall i :: 0 <= i < j ==> RecordOf(packages[i]) != records[k]
    ensures j < |packages| && (k > 0 ==> places[k-1] < j)
  {
    SameRecordSamePlace(packages, other[k], j);
    if k > 0 {
      assert records[..k][k-1] == records[k-1];
      SameRecordSamePlace(packages, other[k-1], places[k-1]);
    }
  }

  lemma NotASublist(records: seq<Record>, packages: seq<Package>, places: seq<nat>, k: nat, j: nat)
    requires UniqueNames(packages) && k < |records| && IsPlacement(places, records[..k], packages)
    requires j <= |packages| && (j < |packages| ==> RecordOf(packages[j]) == records[k])
    requires forall i :: 0 <= i < j ==> RecordOf(packages[i]) != records[k]
    requires j == |packages| || (k > 0 && places[k-1] >= j)
    ensures !Sublist(records, packages)
  {
    forall other: seq<nat> ensures !IsPlacement(other, records, packages) {
      if IsPlacement(other, records, packages) { PlacesAreForced(records, packages, places, other, k, j); }
    }
  }

  lemma SameRecordSamePlace(packages: seq<Package>, i: nat, j: nat)
    requires UniqueNames(packages) && i < |packages| && j < |packages| && RecordOf(packages[i]) == RecordOf(packages[j])
    ensures i == j
  {
    assert packages[i].name == RecordOf(packages[i]).name;
  }

  /** Every version saved while packages are verified is partial and composed from completed ones. */
  ghost predicate Composed(file: ResultFile, packages: seq<Package>, binding: string) {
    exists done: set<string> :: file == ResultFile(binding, Partial, Compose(packages, done))
  }

  /** While a package is asked for or uploaded, no version a crash can reveal lists it. */
  ghost predicate InFlightAbsent(exchanges: seq<Exchange>, from: nat) {
    forall k, v :: from <= k < |exchanges| && v in exchanges[k].disk.maybe ==>
      v.Some? && RecordOf(exchanges[k].request.package) !in v.value.packages
  }

  /** An upload comes after the download of every bundled package it depends on. */
  ghost predicate UploadsFollow(exchanges: seq<Exchange>, from: nat, packages: seq<Package>) {
    forall k, j :: from <= k < |exchanges| && exchanges[k].request.kind.Upload? && 0 <= j < |packages|
                   && packages[j].name in exchanges[k].request.package.dependencies ==>
      Observed(exchanges[..k], from, packages[j])
  }

  lemma ObservedLater(before: seq<Exchange>, after: seq<Exchange>, from: nat)
    requires before <= after && from <= |before|
    ensures forall p :: Observed(before, from, p) || Observed(after, |before|, p) ==> Observed(after, from, p)
  {
    forall p | Observed(before, from, p) ensures Observed(after, from, p) {
      var k :| from <= k < |before| && before[k].request == Request(PayloadOf, p) && Delivers(before[k].reply, p);
      assert after[k] == before[k];
    }
  }

  lemma AbsentWhileVerified(packages: seq<Package>, i: nat, done: set<string>, binding: string,
                            before: seq<Exchange>, after: seq<Exchange>, from: nat)
    requires UniqueNames(packages) && i < |packages| && before <= after && from <= |before|
    requires InFlightAbsent(before, from)
    requires Only(after, |before|, packages[i], Stored(Some(ResultFile(binding, Partial,
                                                                       Compose(packages, done - {packages[i].name})))))
    ensures InFlightAbsent(after, from)
  {
    ComposeMember(packages, done - {packages[i].name}, i);
    assert forall k :: from <= k < |before| ==> after[k] == before[k];
  }

  lemma UploadFollows(packages: seq<Package>, locals: seq<Local>, i: nat, before: seq<Exchange>, after: seq<Exchange>,
                      from: nat)
    requires UniqueNames(packages) && |locals| == |packages| && i < |packages| && Admissible(packages, locals, i)
    requires before <= after && from <= |before| && UploadsFollow(before, from, packages)
    requires forall k :: |before| <= k < |after| ==> after[k].request.package == packages[i]
    requires forall j :: 0 <= j < i ==> Observed(before, from, packages[j])
    ensures UploadsFollow(after, from, packages)
  {
    forall k, j | from <= k < |after| && after[k].request.kind.Upload? && 0 <= j < |packages|
                  && packages[j].name in after[k].request.package.dependencies
      ensures Observed(after[..k], from, packages[j])
    {
      if k < |before| {
        assert after[k] == before[k] && after[..k] == before[..k];
      } else {
        var m :| 0 <= m < i && packages[..i][m].name == packages[j].name;
        assert packages[m].name == packages[j].name && m == j;
        ObservedLater(before, after[..k], from);
      }
    }
  }

  predicate Recoverable(error: Error) {
    error.Transport? || (error.Http? && error.code in {400, 409})
  }

  function Listed(entries: seq<IndexEntry>, version: string): seq<IndexEntry> {
    if entries == [] then []
    else (if entries[0].version == version then [entries[0]] else []) + Listed(entries[1..], version)
  }
}
