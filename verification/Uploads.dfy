/** Uploads and deletions over the object store and the document table
    (app/documents/router.py, app/documents/service.py), one request at a time. */
module Uploads {
  import opened Wrappers
  import opened Sets
  import opened Strings

  const MAX_FILE_BYTES := 50 * 1024 * 1024

  datatype Row = Row(tenant: string, filename: string, key: string)

  /** `orphans` records the objects left behind; `ids` the identifiers drawn so far. */
  datatype World = World(docs: map<string, Row>, objects: map<string, string>, orphans: set<string>, ids: set<string>)

  const INITIAL := World(map[], map[], {}, {})

  /** An upload draws one identifier for the first key and the database another for the row. */
  datatype Request =
    | Upload(tenant: string, filename: Option<string>, typeAllowed: bool, data: string,
             quota: Option<nat>, drawn: string, rowId: string)
    | Remove(tenant: string, id: string, cleaned: bool)

  datatype Reply = Accepted(id: string) | Invalid | QuotaExceeded | Removed | NotFound

  predicate Named(filename: Option<string>) { filename.Some? && filename.value != "" }

  /** The name in the row: `filename or "unnamed"`. */
  function StoredName(filename: Option<string>): string { if Named(filename) then filename.value else "unnamed" }

  /** The name in the key: a missing file name is printed as Python prints None. */
  function NameText(filename: Option<string>): string { if filename.Some? then filename.value else "None" }

  function Key(tenant: string, id: string, name: string): string {
    tenant + (['/'] + ("docs/" + (id + (['/'] + name))))
  }

  function OwnedBy(docs: map<string, Row>, tenant: string): set<string> {
    set d | d in docs && docs[d].tenant == tenant
  }

  predicate Acceptable(r: Request) { r.Upload? && r.typeAllowed && 0 < |r.data| <= MAX_FILE_BYTES }

  predicate OverQuota(s: World, r: Request)
    requires r.Upload?
  {
    r.quota.Some? && |OwnedBy(s.docs, r.tenant)| >= r.quota.value
  }

  predicate Owns(s: World, r: Request)
    requires r.Remove?
  {
    r.id in s.docs && s.docs[r.id].tenant == r.tenant
  }

  /** The state the requests are to establish, without the moves in between. */
  function After(s: World, r: Request): World {
    match r
    case Upload(tenant, filename, _, data, _, drawn, rowId) =>
      var known := s.(ids := s.ids + {drawn, rowId});
      var first, final := Key(tenant, drawn, NameText(filename)), Key(tenant, rowId, NameText(filename));
      if !Acceptable(r) then known
      else if OverQuota(s, r) then known.(objects := s.objects[first := data], orphans := s.orphans + {first})
      else known.(objects := (s.objects - {first})[final := data],
                  docs := s.docs[rowId := Row(tenant, StoredName(filename), final)])
    case Remove(tenant, id, cleaned) =>
      if !Owns(s, r) then s
      else
        var key := s.docs[id].key;
        if cleaned then s.(docs := s.docs - {id}, objects := s.objects - {key})
        else s.(docs := s.docs - {id}, orphans := s.orphans + {key})
  }

  function ReplyTo(s: World, r: Request): Reply {
    if r.Upload? then
      if !Acceptable(r) then Invalid else if OverQuota(s, r) then QuotaExceeded else Accepted(r.rowId)
    else if Owns(s, r) then Removed else NotFound
  }

  function RunOf(requests: seq<Request>): World {
    if requests == [] then INITIAL else After(RunOf(requests[..|requests| - 1]), requests[|requests| - 1])
  }

  /** Identifiers are UUIDs: without a slash and never drawn twice. */
  ghost predicate Fresh(s: World, r: Request) {
    && '/' !in r.tenant
    && (r.Upload? ==> r.drawn != r.rowId && r.drawn !in s.ids && r.rowId !in s.ids)
    && (r.Upload? ==> '/' !in r.drawn && '/' !in r.rowId)
  }

  ghost predicate AllFresh(requests: seq<Request>) {
    forall i :: 0 <= i < |requests| ==> Fresh(RunOf(requests[..i]), requests[i])
  }

  // ---------------------------------------------------------------- the handlers

  /** Storing under one key and moving to another is storing under the other. */
  lemma Moved(objects: map<string, string>, first: string, final: string, data: string)
    ensures first != final ==> objects[first := data][final := data] - {first} == (objects - {first})[final := data]
    ensures objects[first := data] == (objects - {first})[first := data]
  {
  }

  class DocumentService {
    var docs: map<string, Row>
    var objects: map<string, string>
    ghost var orphans: set<string>
    ghost var ids: set<string>

    constructor ()
      ensures State() == INITIAL
    {
      docs, objects, orphans, ids := map[], map[], {}, {};
    }

    ghost function State(): World
      reads this
    {
      World(docs, objects, orphans, ids)
    }

    /** The object is stored under a first key, the row is created, and the object is
        moved to the key with the row's identifier. */
    method UploadDocument(r: Request) returns (reply: Reply)
      requires r.Upload?
      modifies this
      ensures State() == After(old(State()), r) && reply == ReplyTo(old(State()), r)
    {
      hide Key, OwnedBy;
      ids := ids + {r.drawn, r.rowId};
      if !r.typeAllowed || |r.data| > MAX_FILE_BYTES || |r.data| == 0 {
        return Invalid;
      }
      var s3Key := Key(r.tenant, r.drawn, NameText(r.filename));
      objects := objects[s3Key := r.data];
      var count := |OwnedBy(docs, r.tenant)|;
      if r.quota.Some? && count >= r.quota.value {
        orphans := orphans + {s3Key};
        return QuotaExceeded;
      }
      docs := docs[r.rowId := Row(r.tenant, StoredName(r.filename), s3Key)];
      var correctKey := Key(r.tenant, r.rowId, NameText(r.filename));
      if correctKey != s3Key {
        objects := objects[correctKey := r.data];
        objects := objects - {s3Key};
        docs := docs[r.rowId := docs[r.rowId].(key := correctKey)];
      }
      Moved(old(objects), s3Key, correctKey, r.data);
      return Accepted(r.rowId);
    }

    method DeleteDocument(r: Request) returns (reply: Reply)
      requires r.Remove?
      modifies this
      ensures State() == After(old(State()), r) && reply == ReplyTo(old(State()), r)
    {
      if r.id !in docs || docs[r.id].tenant != r.tenant {
        return NotFound;
      }
      var s3Key := docs[r.id].key;
      docs := docs - {r.id};
      if r.cleaned {
        objects := objects - {s3Key};
      } else {
        orphans := orphans + {s3Key};
      }
      return Removed;
    }
  }

  // ---------------------------------------------------------------- the invariant

  /** Keys determine tenant and identifier. */
  lemma KeysDiffer(tenant: string, id: string, name: string, other: string, id': string, name': string)
    requires '/' !in tenant && '/' !in other && '/' !in id && '/' !in id'
    requires Key(tenant, id, name) == Key(other, id', name')
    ensures tenant == other && id == id'
  {
    var x, y := id + (['/'] + name), id' + (['/'] + name');
    CutOnce(tenant, "docs/" + x, other, "docs/" + y, '/');
    SamePrefix("docs/", x, y);
    CutOnce(id, name, id', name', '/');
  }

  /** A key determines its name. */
  lemma SameName(tenant: string, id: string, name: string, name': string)
    ensures Key(tenant, id, name) == Key(tenant, id, name') <==> name == name'
  {
    if Key(tenant, id, name) == Key(tenant, id, name') {
      SamePrefix(tenant, ['/'] + ("docs/" + (id + (['/'] + name))), ['/'] + ("docs/" + (id + (['/'] + name'))));
      SamePrefix(['/'], "docs/" + (id + (['/'] + name)), "docs/" + (id + (['/'] + name')));
      SamePrefix("docs/", id + (['/'] + name), id + (['/'] + name'));
      SamePrefix(id, ['/'] + name, ['/'] + name');
      SamePrefix(['/'], name, name');
    }
  }

  /** A key made from an identifier drawn before. */
  ghost predicate Drawn(s: World, key: string) {
    exists tenant, id, name :: '/' !in tenant && '/' !in id && id in s.ids && key == Key(tenant, id, name)
  }

  ghost predicate Placed(s: World, id: string)
    requires id in s.docs
  {
    var row := s.docs[id];
    && '/' !in row.tenant && '/' !in id && id in s.ids
    && (exists name :: row.key == Key(row.tenant, id, name))
    && row.key in s.objects && row.key !in s.orphans
  }

  /** Every row's object is where its key says; every other object is an orphan. */
  ghost predicate Inv(s: World) {
    && (forall id :: id in s.docs ==> Placed(s, id))
    && (forall key :: key in s.objects && key !in s.orphans ==> exists id :: id in s.docs && s.docs[id].key == key)
    && (forall key :: key in s.orphans ==> key in s.objects && Drawn(s, key))
  }

  lemma AcceptedKeeps(s: World, r: Request)
    requires Inv(s) && Fresh(s, r) && r.Upload? && Acceptable(r) && !OverQuota(s, r)
    ensures Inv(After(s, r))
  {
    var s', final := After(s, r), Key(r.tenant, r.rowId, NameText(r.filename));
    NewKey(s, r.tenant, r.rowId, NameText(r.filename));
    NewKey(s, r.tenant, r.drawn, NameText(r.filename));
    forall id | id in s'.docs ensures Placed(s', id) {
      if id != r.rowId {
        assert Placed(s, id);
      }
    }
    forall key | key in s'.objects && key !in s'.orphans ensures exists id :: id in s'.docs && s'.docs[id].key == key {
      if key == final {
        assert r.rowId in s'.docs && s'.docs[r.rowId].key == final;
      } else {
        var id :| id in s.docs && s.docs[id].key == key;
        assert Placed(s, id) && id in s'.docs && s'.docs[id] == s.docs[id];
      }
    }
    OrphansStay(s, s');
  }

  lemma RefusedKeeps(s: World, r: Request)
    requires Inv(s) && Fresh(s, r) && r.Upload? && !(Acceptable(r) && !OverQuota(s, r))
    ensures Inv(After(s, r))
  {
    var s', first := After(s, r), Key(r.tenant, r.drawn, NameText(r.filename));
    NewKey(s, r.tenant, r.drawn, NameText(r.filename));
    forall id | id in s'.docs ensures Placed(s', id) {
      assert Placed(s, id);
    }
    OrphansStay(s, s');
    assert r.drawn in s'.ids && Drawn(s', first);
  }

  lemma OrphansStay(s: World, s': World)
    requires Inv(s) && s.ids <= s'.ids
    ensures forall key :: key in s.orphans ==> Drawn(s', key)
  {
    forall key | key in s.orphans ensures Drawn(s', key) {
      assert Drawn(s, key);
    }
  }

  /** A key with a new identifier is the key of no row, no orphan and no object. */
  lemma NewKey(s: World, tenant: string, id: string, name: string)
    requires Inv(s) && '/' !in tenant && '/' !in id && id !in s.ids
    ensures var key := Key(tenant, id, name);
      key !in s.orphans && key !in s.objects && (forall d :: d in s.docs ==> s.docs[d].key != key)
  {
    hide Key;
    var key := Key(tenant, id, name);
    if key in s.orphans {
      assert Drawn(s, key);
      var t, i, n :| '/' !in t && '/' !in i && i in s.ids && key == Key(t, i, n);
      KeysDiffer(tenant, id, name, t, i, n);
    }
    forall d | d in s.docs ensures s.docs[d].key != key {
      assert Placed(s, d);
      if s.docs[d].key == key {
        var n :| key == Key(s.docs[d].tenant, d, n);
        KeysDiffer(tenant, id, name, s.docs[d].tenant, d, n);
      }
    }
  }

  /** Different rows have different keys. */
  lemma RowKeysDiffer(s: World, a: string, b: string)
    requires Inv(s) && a in s.docs && b in s.docs && a != b
    ensures s.docs[a].key != s.docs[b].key
  {
    hide Key;
    assert Placed(s, a) && Placed(s, b);
    if s.docs[a].key == s.docs[b].key {
      var n :| s.docs[a].key == Key(s.docs[a].tenant, a, n);
      var m :| s.docs[b].key == Key(s.docs[b].tenant, b, m);
      KeysDiffer(s.docs[a].tenant, a, n, s.docs[b].tenant, b, m);
    }
  }

  lemma RemoveKeeps(s: World, r: Request)
    requires Inv(s) && r.Remove? && Owns(s, r)
    ensures Inv(After(s, r))
  {
    var s', gone := After(s, r), s.docs[r.id].key;
    assert Placed(s, r.id);
    forall id | id in s'.docs ensures Placed(s', id) {
      assert Placed(s, id);
      RowKeysDiffer(s, id, r.id);
    }
    forall key | key in s'.objects && key !in s'.orphans ensures exists id :: id in s'.docs && s'.docs[id].key == key {
      var id :| id in s.docs && s.docs[id].key == key;
      assert id != r.id;
      assert id in s'.docs && s'.docs[id].key == key;
    }
    forall key | key in s'.orphans ensures Drawn(s', key) {
      if key in s.orphans {
        assert Drawn(s, key);
      } else {
        var name :| key == Key(s.docs[r.id].tenant, r.id, name);
      }
    }
  }

  /** In every run of requests the invariant holds. */
  lemma {:induction false} Reachable(requests: seq<Request>)
    requires AllFresh(requests)
    ensures Inv(RunOf(requests))
  {
    if requests != [] {
      var p, last := requests[..|requests| - 1], requests[|requests| - 1];
      AllFreshPrefix(requests);
      Reachable(p);
      if last.Upload? {
        if Acceptable(last) && !OverQuota(RunOf(p), last) {
          AcceptedKeeps(RunOf(p), last);
        } else {
          RefusedKeeps(RunOf(p), last);
        }
      } else if Owns(RunOf(p), last) {
        RemoveKeeps(RunOf(p), last);
      }
    }
  }

  /** The keys left behind by a request: the first key of an upload the quota refused, or
      the key of a document whose object could not be deleted. */
  function LeftBehind(s: World, r: Request): set<string> {
    if r.Upload? && Acceptable(r) && OverQuota(s, r) then {Key(r.tenant, r.drawn, NameText(r.filename))}
    else if r.Remove? && Owns(s, r) && !r.cleaned then {s.docs[r.id].key}
    else {}
  }

  function AllLeftBehind(requests: seq<Request>): set<string> {
    if requests == [] then {}
    else
      var p := requests[..|requests| - 1];
      AllLeftBehind(p) + LeftBehind(RunOf(p), requests[|p|])
  }

  lemma {:induction false} OrphansAre(requests: seq<Request>)
    ensures RunOf(requests).orphans == AllLeftBehind(requests)
  {
    if requests != [] {
      OrphansAre(requests[..|requests| - 1]);
    }
  }

  /** A later request leaves the row, its key and its object as they are. */
  lemma RowStays(s: World, r: Request, id: string)
    requires Inv(s) && Fresh(s, r) && id in s.docs && id in After(s, r).docs
    ensures var s', key := After(s, r), s.docs[id].key;
      s'.docs[id] == s.docs[id] && key in s.objects && key in s'.objects && s'.objects[key] == s.objects[key]
  {
    hide Key;
    assert Placed(s, id);
    if r.Upload? {
      NewKey(s, r.tenant, r.drawn, NameText(r.filename));
      NewKey(s, r.tenant, r.rowId, NameText(r.filename));
    } else if Owns(s, r) {
      RowKeysDiffer(s, id, r.id);
    }
  }

  /** Request i created the row, whose object holds its bytes. */
  ghost predicate CreatedBy(requests: seq<Request>, i: nat, id: string) {
    && i < |requests| && requests[i].Upload? && ReplyTo(RunOf(requests[..i]), requests[i]) == Accepted(id)
    && var s, r := RunOf(requests), requests[i];
       && id in s.docs && s.docs[id].tenant == r.tenant && s.docs[id].filename == StoredName(r.filename)
       && s.docs[id].key == Key(r.tenant, id, NameText(r.filename))
       && s.docs[id].key in s.objects && s.objects[s.docs[id].key] == r.data
  }

  lemma AllFreshPrefix(requests: seq<Request>)
    requires requests != [] && AllFresh(requests)
    ensures var p := requests[..|requests| - 1];
      AllFresh(p) && Fresh(RunOf(p), requests[|p|])
  {
    var p := requests[..|requests| - 1];
    forall i | 0 <= i < |p| ensures Fresh(RunOf(p[..i]), p[i]) {
      assert p[..i] == requests[..i];
    }
    assert requests[..|p|] == p;
  }

  /** Every row was created by a request. */
  lemma {:induction false} Creator(requests: seq<Request>, id: string) returns (i: nat)
    requires AllFresh(requests) && id in RunOf(requests).docs
    ensures CreatedBy(requests, i, id)
    decreases |requests|
  {
    hide Key, StoredName, NameText;
    var p, last := requests[..|requests| - 1], requests[|requests| - 1];
    AllFreshPrefix(requests);
    Reachable(p);
    if id in RunOf(p).docs {
      i := Creator(p, id);
      assert p[..i] == requests[..i];
      RowStays(RunOf(p), last, id);
    } else {
      i := |p|;
    }
  }

  /** After any requests: every row was created by an upload, its key is the tenant, its own
      identifier and the name of that upload, and holds the bytes uploaded; the name in the
      key is the name in the row exactly when that upload had one; keys of distinct rows
      differ; and an object has no row exactly when a refused upload or a failed clean-up
      left it behind. */
  lemma StoreMatchesTable(requests: seq<Request>, id: string, other: string, key: string)
    requires AllFresh(requests)
    ensures var s := RunOf(requests);
      && (id in s.docs ==>
            var row := s.docs[id];
            exists i: nat :: CreatedBy(requests, i, id)
              && (row.key == Key(row.tenant, id, row.filename) <==> Named(requests[i].filename)))
      && (id in s.docs && other in s.docs && id != other ==> s.docs[id].key != s.docs[other].key)
      && (key in s.objects && (forall d :: d in s.docs ==> s.docs[d].key != key) <==> key in AllLeftBehind(requests))
  {
    Reachable(requests);
    OrphansAre(requests);
    var s := RunOf(requests);
    if id in s.docs {
      var i := Creator(requests, id);
      var name := requests[i].filename;
      SameName(s.docs[id].tenant, id, NameText(name), StoredName(name));
      NamesAgree(name);
      if other in s.docs && id != other {
        RowKeysDiffer(s, id, other);
      }
    }
    forall d | d in s.docs && key in s.orphans ensures s.docs[d].key != key {
      assert Placed(s, d);
    }
  }

  lemma NamesAgree(filename: Option<string>)
    ensures NameText(filename) == StoredName(filename) <==> Named(filename)
  {
    assert NameText(None) == "None" && StoredName(None) == "unnamed";
    assert "None"[0] != "unnamed"[0];
  }

  /** An accepted upload without a name: the row is called "unnamed", its key is not. */
  lemma NamelessUpload(tenant: string, missing: bool, data: string, drawn: string, rowId: string)
    requires 0 < |data| <= MAX_FILE_BYTES
    ensures var name := if missing then None else Some("");
      var s := RunOf([Upload(tenant, name, true, data, None, drawn, rowId)]);
      && rowId in s.docs && s.docs[rowId].filename == "unnamed"
      && s.docs[rowId].key == Key(tenant, rowId, if missing then "None" else "")
      && s.docs[rowId].key != Key(tenant, rowId, s.docs[rowId].filename)
  {
    var name := if missing then None else Some("");
    var r := Upload(tenant, name, true, data, None, drawn, rowId);
    assert [r][..0] == [] && RunOf([r]) == After(INITIAL, r);
    SameName(tenant, rowId, NameText(name), StoredName(name));
    NamesAgree(name);
  }

  // ---------------------------------------------------------------- replies

  /** A key is the tenant, "docs", the identifier and the name, separated by slashes. */
  lemma KeyText(tenant: string, id: string, name: string)
    ensures Key(tenant, id, name) == tenant + "/docs/" + id + "/" + name
  {
    assert ['/'] + ("docs/" + (id + (['/'] + name))) == "/docs/" + id + "/" + name;
  }

  /** When an upload is invalid, over the quota or accepted, and when a deletion finds its document. */
  lemma Replies(s: World, r: Request)
    ensures r.Upload? ==>
      var invalid := !r.typeAllowed || |r.data| == 0 || |r.data| > 52_428_800;
      var full := r.quota.Some? && |set d | d in s.docs && s.docs[d].tenant == r.tenant| >= r.quota.value;
      ReplyTo(s, r) == if invalid then Invalid else if full then QuotaExceeded else Accepted(r.rowId)
    ensures r.Remove? ==>
      ReplyTo(s, r) == if r.id in s.docs && s.docs[r.id].tenant == r.tenant then Removed else NotFound
  {
    assert OwnedBy(s.docs, r.tenant) == set d | d in s.docs && s.docs[d].tenant == r.tenant;
  }

  /** What the replies mean for the table: an accepted upload adds its row, a deletion takes away
      exactly the owner's row, and every other reply leaves the table as it was. */
  lemma TableAfter(s: World, r: Request)
    ensures match ReplyTo(s, r)
      case Accepted(id) =>
        && id in After(s, r).docs && After(s, r).docs - {id} == s.docs - {id}
        && After(s, r).docs[id].tenant == r.tenant
      case Removed => r.Remove? && After(s, r).docs == s.docs - {r.id} && s.docs[r.id].tenant == r.tenant
      case _ => After(s, r).docs == s.docs
    ensures ReplyTo(s, r) == Invalid || ReplyTo(s, r) == NotFound ==> After(s, r).objects == s.objects
    ensures ReplyTo(s, r) == Removed ==>
      After(s, r).objects == if r.cleaned then s.objects - {s.docs[r.id].key} else s.objects
  {
  }

  /** The quota over runs: a tenant whose uploads, one at a time, carry the same quota never has more documents. */
  lemma {:induction false} QuotaHolds(requests: seq<Request>, tenant: string, quota: nat)
    requires forall r :: r in requests && r.Upload? && r.tenant == tenant ==> r.quota == Some(quota)
    ensures |OwnedBy(RunOf(requests).docs, tenant)| <= quota
  {
    if requests == [] {
      assert OwnedBy(RunOf(requests).docs, tenant) == {};
    } else {
      var p, last := requests[..|requests| - 1], requests[|requests| - 1];
      QuotaHolds(p, tenant, quota);
      OwnedAfter(RunOf(p), last, tenant, quota);
    }
  }

  lemma OwnedAfter(s: World, r: Request, tenant: string, quota: nat)
    requires |OwnedBy(s.docs, tenant)| <= quota
    requires r.Upload? && r.tenant == tenant ==> r.quota == Some(quota)
    ensures |OwnedBy(After(s, r).docs, tenant)| <= quota
  {
    TableAfter(s, r);
    var before, after := OwnedBy(s.docs, tenant), OwnedBy(After(s, r).docs, tenant);
    if ReplyTo(s, r).Accepted? && r.tenant == tenant {
      assert after <= before + {r.rowId};
      Smaller(after, before + {r.rowId});
      Changed(before, r.rowId);
    } else {
      Smaller(after, before);
    }
  }
}
