/** The mutable tables of ClangdServer: drafts, the scheduler's queue, reported versions. */
module ServerTables {
  import opened Options

  type File = string

  /** VersionedDraft: the contents are None once the document was removed. */
  datatype Draft = Draft(version: nat, contents: Option<string>)

  type Drafts = map<File, Draft>

  function Version(drafts: Drafts, file: File): nat {
    if file in drafts then drafts[file].version else 0
  }

  predicate Open(drafts: Drafts, file: File) {
    file in drafts && drafts[file].contents.Some?
  }

  /** updateDraft (with contents) and removeDraft (without): both bump the version. */
  function Bumped(drafts: Drafts, file: File, contents: Option<string>): Drafts {
    drafts[file := Draft(Version(drafts, file) + 1, contents)]
  }

  class DraftStore {
    var drafts: Drafts

    constructor ()
      ensures drafts == map[]
    {
      drafts := map[];
    }

    method GetDraft(file: File) returns (draft: Draft)
      ensures draft.version == Version(drafts, file)
      ensures draft.contents.Some? <==> Open(drafts, file)
      ensures file in drafts ==> draft == drafts[file]
    {
      if file !in drafts {
        return Draft(0, None);
      }
      return drafts[file];
    }

    method GetVersion(file: File) returns (version: nat)
      ensures version == Version(drafts, file)
    {
      if file !in drafts {
        return 0;
      }
      return drafts[file].version;
    }

    /** operator[] default-constructs a missing entry before it is changed. */
    method Entry(file: File) returns (entry: Draft)
      modifies this
      ensures entry.version == Version(old(drafts), file) && file in drafts && drafts[file] == entry
      ensures drafts == old(drafts)[file := entry]
    {
      if file !in drafts {
        drafts := drafts[file := Draft(0, None)];
      }
      entry := drafts[file];
      assert drafts == drafts[file := entry];
    }

    method UpdateDraft(file: File, contents: string) returns (newVersion: nat)
      modifies this
      ensures drafts == Bumped(old(drafts), file, Some(contents))
      ensures newVersion == Version(old(drafts), file) + 1
      ensures drafts == old(drafts)[file := Draft(newVersion, Some(contents))]
    {
      var entry := Entry(file);
      newVersion := entry.version + 1;
      drafts := drafts[file := Draft(newVersion, Some(contents))];
    }

    method RemoveDraft(file: File) returns (newVersion: nat)
      modifies this
      ensures drafts == Bumped(old(drafts), file, None)
      ensures newVersion == Version(old(drafts), file) + 1
      ensures drafts == old(drafts)[file := Draft(newVersion, None)]
    {
      var entry := Entry(file);
      newVersion := entry.version + 1;
      drafts := drafts[file := Draft(newVersion, None)];
    }
  }

  /** addToFront: the new request is the next one to be taken. */
  function Pushed<T>(queue: seq<T>, request: T): seq<T> {
    [request] + queue
  }

  /** ClangdScheduler's deque of requests. */
  class RequestQueue<Request> {
    var requests: seq<Request>

    constructor ()
      ensures requests == []
    {
      requests := [];
    }

    method AddToFront(request: Request)
      modifies this
      ensures requests == Pushed(old(requests), request)
    {
      requests := [request] + requests;
    }

    method AddToEnd(request: Request)
      modifies this
      ensures requests == old(requests) + [request]
    {
      requests := requests + [request];
    }

    /** What a worker does once its wait for a non-empty queue is over. */
    method Take() returns (request: Request)
      requires requests != []
      modifies this
      ensures Pushed(requests, request) == old(requests)
    {
      request := requests[0];
      requests := requests[1..];
    }
  }

  /** What is handed to the diagnostics consumer. `unit` and `request` record which closure of which
      CppFile returned the diagnostics. */
  datatype Publication = Publication(file: File, version: nat, diags: seq<nat>, unit: nat, request: nat)

  function Reported(reported: map<File, nat>, file: File): nat {
    if file in reported then reported[file] else 0
  }

  predicate Outdated(reported: map<File, nat>, p: Publication) {
    p.version < Reported(reported, p.file)
  }

  /** The last reported versions after p was ready to be published. */
  function Recorded(reported: map<File, nat>, p: Publication): map<File, nat> {
    if Outdated(reported, p) then reported else reported[p.file := p.version]
  }

  /** What has been published then. */
  function Announced(published: seq<Publication>, reported: map<File, nat>, p: Publication): seq<Publication> {
    if Outdated(reported, p) then published else published + [p]
  }

  /** The region under DiagnosticsMutex: an older version than the last reported one is dropped. */
  class DiagnosticsReporter {
    var reported: map<File, nat>
    var published: seq<Publication>

    constructor ()
      ensures reported == map[] && published == []
    {
      reported, published := map[], [];
    }

    method Publish(p: Publication)
      modifies this
      ensures reported == Recorded(old(reported), p)
      ensures published == Announced(old(published), old(reported), p)
    {
      if p.file !in reported {
        reported := reported[p.file := 0];
      }
      if p.version < reported[p.file] {
        return;
      }
      reported := reported[p.file := p.version];
      published := published + [p];
    }
  }
}
