/**
 Paged batch queries for advisories by package name (arguss/lenses/_osv_client.py). The server is any
 function from a name and a page token to a page; a result that is not an object counts as an empty last page.
 */
module OsvPaging {
  import opened Basics
  import opened Sorting

  const OSV_BATCH_CHUNK_SIZE: nat := 500
  const OSV_MAX_BATCH_PAGES: nat := 50

  datatype Page = Page(ids: seq<string>, next: Option<string>)

  type Server = (string, Option<string>) -> Page

  // ---- The reference: all pages of one name, in order ----

  /** `pages` is everything the server has on `name` from `token` on, each page asked for with the token before it. */
  predicate AllPages(server: Server, name: string, token: Option<string>, pages: seq<Page>)
    decreases |pages|
  {
    && pages != [] && pages[0] == server(name, token)
    && if pages[0].next.Some? then AllPages(server, name, pages[0].next, pages[1..]) else |pages| == 1
  }

  /** Each page is asked for with the token of the one before it, and the last one alone gives none. */
  lemma {:induction false} PagesFollowTokens(server: Server, name: string, token: Option<string>, pages: seq<Page>,
      i: nat)
    requires AllPages(server, name, token, pages) && i < |pages|
    ensures pages[i] == server(name, if i == 0 then token else pages[i - 1].next)
    ensures pages[i].next.Some? <==> i < |pages| - 1
    decreases i
  {
    if i > 0 { PagesFollowTokens(server, name, pages[0].next, pages[1..], i - 1); }
  }

  function Concatenated(pages: seq<Page>): seq<string> {
    if pages == [] then [] else pages[0].ids + Concatenated(pages[1..])
  }

  /** Each page's ids stand after those of the pages before it. */
  lemma {:induction false} ConcatenatedInOrder(pages: seq<Page>, page: Page)
    ensures Concatenated([]) == [] && Concatenated(pages + [page]) == Concatenated(pages) + page.ids
  {
    if pages == [] {
      assert [] + [page] == [page] && [page][1..] == [];
    } else {
      assert (pages + [page])[1..] == pages[1..] + [page];
      ConcatenatedInOrder(pages[1..], page);
    }
  }

  ghost predicate FitsIn(server: Server, name: string, limit: nat) {
    exists pages :: AllPages(server, name, None, pages) && |pages| <= limit
  }

  // ---- The client, one round of pages at a time ----

  datatype Cursor = At(token: Option<string>) | Finished

  /** Where a name is after so many rounds. */
  function CursorAfter(server: Server, name: string, rounds: nat): Cursor {
    if rounds == 0 then At(None)
    else
      var c := CursorAfter(server, name, rounds - 1);
      if c.Finished? then Finished
      else if server(name, c.token).next.Some? then At(server(name, c.token).next)
      else Finished
  }

  function IdsAfter(server: Server, name: string, rounds: nat): seq<string> {
    if rounds == 0 then []
    else
      var c := CursorAfter(server, name, rounds - 1);
      IdsAfter(server, name, rounds - 1) + (if c.At? then server(name, c.token).ids else [])
  }

  /** The queries of a chunk still open after so many rounds. */
  function PendingAfter(server: Server, chunk: seq<string>, rounds: nat): seq<(string, Option<string>)> {
    if chunk == [] then []
    else
      var name := chunk[|chunk| - 1];
      var c := CursorAfter(server, name, rounds);
      PendingAfter(server, chunk[..|chunk| - 1], rounds) + (if c.At? then [(name, c.token)] else [])
  }

  /** The next round's queries. */
  function Advance(server: Server, pending: seq<(string, Option<string>)>): seq<(string, Option<string>)> {
    if pending == [] then []
    else
      var (name, token) := pending[|pending| - 1];
      var next := server(name, token).next;
      Advance(server, pending[..|pending| - 1]) + (if next.Some? then [(name, next)] else [])
  }

  lemma {:induction false} AdvanceOne(server: Server, pending: seq<(string, Option<string>)>,
      q: (string, Option<string>))
    ensures var next := server(q.0, q.1).next;
      Advance(server, pending + [q]) == Advance(server, pending) + (if next.Some? then [(q.0, next)] else [])
  {
    assert (pending + [q])[..|pending|] == pending;
  }

  lemma {:induction false} PendingAdvances(server: Server, chunk: seq<string>, rounds: nat)
    ensures PendingAfter(server, chunk, rounds + 1) == Advance(server, PendingAfter(server, chunk, rounds))
  {
    if chunk != [] {
      var init, name := chunk[..|chunk| - 1], chunk[|chunk| - 1];
      PendingAdvances(server, init, rounds);
      var c := CursorAfter(server, name, rounds);
      if c.At? {
        AdvanceOne(server, PendingAfter(server, init, rounds), (name, c.token));
      } else {
        assert PendingAfter(server, chunk, rounds) == PendingAfter(server, init, rounds);
        assert PendingAfter(server, chunk, rounds + 1) == PendingAfter(server, init, rounds + 1);
      }
    }
  }

  /** Exactly the unfinished names are pending, each once where the chunk has it once. */
  lemma {:induction false} PendingAre(server: Server, chunk: seq<string>, rounds: nat)
    ensures forall q :: q in PendingAfter(server, chunk, rounds) <==>
        q.0 in chunk && CursorAfter(server, q.0, rounds) == At(q.1)
    ensures Distinct(chunk) ==> DistinctNames(PendingAfter(server, chunk, rounds))
  {
    hide CursorAfter;
    if chunk != [] {
      var init, name := chunk[..|chunk| - 1], chunk[|chunk| - 1];
      assert chunk == init + [name];
      PendingAre(server, init, rounds);
      if Distinct(chunk) {
        var before, after := PendingAfter(server, init, rounds), PendingAfter(server, chunk, rounds);
        forall i, j | 0 <= i < j < |after| ensures after[i].0 != after[j].0 {
          if j == |before| { assert after[i] in before && after[i].0 in init; }
        }
      }
    }
  }

  ghost predicate DistinctNames(pending: seq<(string, Option<string>)>) {
    forall i, j | 0 <= i < j < |pending| :: pending[i].0 != pending[j].0
  }

  lemma {:induction false} FinishedStays(server: Server, name: string, rounds: nat, later: nat)
    requires CursorAfter(server, name, rounds).Finished? && rounds <= later
    ensures CursorAfter(server, name, later).Finished? &&
        IdsAfter(server, name, later) == IdsAfter(server, name, rounds)
  {
    if rounds < later {
      FinishedStays(server, name, rounds, later - 1);
    }
  }

  // ---- The method ----

  datatype Response = Advisories(idsByName: map<string, seq<string>>) | TooManyPages

  /** What the inner loop has after `rounds` rounds of one chunk, with `done` names of other chunks complete. */
  ghost predicate ChunkState(server: Server, unique: seq<string>, start: nat, end: nat, rounds: nat,
      ids: map<string, seq<string>>)
    requires start <= end <= |unique|
  {
    && ids.Keys == (set n | n in unique)
    && forall i | 0 <= i < |unique| :: ids[unique[i]] ==
         (if i < start then IdsAfter(server, unique[i], OSV_MAX_BATCH_PAGES)
          else if i < end then IdsAfter(server, unique[i], rounds)
          else [])
  }

  /** Part of a round: the first `done` pending queries have been answered. */
  ghost predicate RoundState(server: Server, pending: seq<(string, Option<string>)>, done: nat,
      was: map<string, seq<string>>, ids: map<string, seq<string>>)
    requires done <= |pending| && forall q | q in pending :: q.0 in was
  {
    && ids.Keys == was.Keys
    && forall n | n in was :: ids[n] == was[n] + Answered(server, pending[..done], n)
  }

  /** The ids a list of queries brings for one name. */
  function Answered(server: Server, queries: seq<(string, Option<string>)>, n: string): seq<string> {
    if queries == [] then []
    else
      var (name, token) := queries[|queries| - 1];
      Answered(server, queries[..|queries| - 1], n) + (if name == n then server(name, token).ids else [])
  }

  lemma {:induction false} AnsweredRound(server: Server, pending: seq<(string, Option<string>)>, n: string)
    requires DistinctNames(pending)
    ensures forall t :: (n, t) in pending ==> Answered(server, pending, n) == server(n, t).ids
    ensures (forall q | q in pending :: q.0 != n) ==> Answered(server, pending, n) == []
  {
    if pending != [] {
      var init, q := pending[..|pending| - 1], pending[|pending| - 1];
      assert pending == init + [q];
      AnsweredRound(server, init, n);
      if q.0 == n {
        forall r | r in init ensures r.0 != n {
          var i :| 0 <= i < |init| && init[i] == r;
          assert pending[i].0 != pending[|init|].0;
        }
        assert Answered(server, init, n) == [];
      }
    }
  }

  /** One round brings each name of the chunk its next page. */
  lemma {:induction false} RoundMakesIds(server: Server, chunk: seq<string>, rounds: nat, n: string)
    requires Distinct(chunk) && n in chunk
    ensures IdsAfter(server, n, rounds + 1) ==
        IdsAfter(server, n, rounds) + Answered(server, PendingAfter(server, chunk, rounds), n)
  {
    hide Answered, PendingAfter, IdsAfter, CursorAfter;
    PendingAre(server, chunk, rounds);
    var pending := PendingAfter(server, chunk, rounds);
    AnsweredRound(server, pending, n);
    var c := CursorAfter(server, n, rounds);
    IdsOneMore(server, n, rounds);
    if c.At? {
      assert (n, c.token) in pending;
    } else {
      forall q | q in pending ensures q.0 != n {}
    }
  }

  lemma {:induction false} IdsOneMore(server: Server, n: string, rounds: nat)
    ensures var c := CursorAfter(server, n, rounds);
      IdsAfter(server, n, rounds + 1) == IdsAfter(server, n, rounds) + (if c.At? then server(n, c.token).ids else [])
  {
  }

  lemma {:induction false} NotInChunk(server: Server, chunk: seq<string>, rounds: nat, n: string)
    requires Distinct(chunk) && n !in chunk
    ensures Answered(server, PendingAfter(server, chunk, rounds), n) == []
  {
    hide Answered, PendingAfter, CursorAfter;
    PendingAre(server, chunk, rounds);
    AnsweredRound(server, PendingAfter(server, chunk, rounds), n);
  }

  lemma {:induction false} RoundStarts(server: Server, pending: seq<(string, Option<string>)>,
      was: map<string, seq<string>>)
    requires forall q | q in pending :: q.0 in was
    ensures RoundState(server, pending, 0, was, was) && Advance(server, pending[..0]) == []
  {
  }

  lemma {:induction false} RoundStep(server: Server, pending: seq<(string, Option<string>)>, done: nat,
      was: map<string, seq<string>>, ids: map<string, seq<string>>)
    requires (forall q | q in pending :: q.0 in was) && done < |pending| && RoundState(server, pending, done, was, ids)
    ensures pending[done] in pending && pending[done].0 in ids
    ensures var (name, token) := pending[done];
      RoundState(server, pending, done + 1, was, ids[name := ids[name] + server(name, token).ids])
  {
    assert pending[done] in pending;
    assert pending[..done + 1][..done] == pending[..done];
  }

  lemma {:induction false} RoundEnds(server: Server, pending: seq<(string, Option<string>)>,
      was: map<string, seq<string>>, ids: map<string, seq<string>>)
    requires (forall q | q in pending :: q.0 in was) && RoundState(server, pending, |pending|, was, ids)
    ensures ids.Keys == was.Keys && forall n | n in was :: ids[n] == was[n] + Answered(server, pending, n)
  {
    assert pending[..|pending|] == pending;
  }

  /** One POST: every pending query gets its page; those with a token stay pending. */
  method AskRound(server: Server, pending: seq<(string, Option<string>)>, was: map<string, seq<string>>)
    returns (next: seq<(string, Option<string>)>, ids: map<string, seq<string>>)
    requires forall q | q in pending :: q.0 in was
    ensures next == Advance(server, pending)
    ensures ids.Keys == was.Keys && forall n | n in was :: ids[n] == was[n] + Answered(server, pending, n)
  {
    hide Advance, RoundState, Answered;
    next, ids := [], was;
    RoundStarts(server, pending, was);
    var i := 0;
    while i < |pending|
      invariant 0 <= i <= |pending| && next == Advance(server, pending[..i])
      invariant RoundState(server, pending, i, was, ids)
    {
      assert pending[..i + 1] == pending[..i] + [pending[i]] && pending[i] in pending;
      AdvanceOne(server, pending[..i], pending[i]);
      RoundStep(server, pending, i, was, ids);
      var (name, token) := pending[i];
      var result := server(name, token);
      ids := ids[name := ids[name] + result.ids];
      if result.next.Some? { next := next + [(name, result.next)]; }
      i := i + 1;
    }
    assert pending[..i] == pending;
    RoundEnds(server, pending, was, ids);
  }

  // ---- The whole query ----

  /** One round moves the chunk's names one page on and touches no other name. */
  lemma {:induction false} ChunkStep(server: Server, unique: seq<string>, start: nat, end: nat, rounds: nat,
      ids: map<string, seq<string>>, after: map<string, seq<string>>)
    requires start <= end <= |unique| && Distinct(unique) && ChunkState(server, unique, start, end, rounds, ids)
    requires after.Keys == ids.Keys
    requires forall n | n in ids ::
        after[n] == ids[n] + Answered(server, PendingAfter(server, unique[start..end], rounds), n)
    ensures ChunkState(server, unique, start, end, rounds + 1, after)
  {
    hide IdsAfter, Answered, PendingAfter;
    var chunk := unique[start..end];
    assert Distinct(chunk);
    forall i | 0 <= i < |unique| ensures unique[i] in ids && after[unique[i]] ==
      (if i < start then IdsAfter(server, unique[i], OSV_MAX_BATCH_PAGES)
       else if i < end then IdsAfter(server, unique[i], rounds + 1)
       else [])
    {
      assert unique[i] in ids.Keys;
      if start <= i < end {
        assert unique[i] == chunk[i - start];
        RoundMakesIds(server, chunk, rounds, unique[i]);
      } else {
        NotInChunk(server, chunk, rounds, unique[i]);
      }
    }
  }

  lemma {:induction false} NonePending(server: Server, chunk: seq<string>, rounds: nat)
    requires PendingAfter(server, chunk, rounds) == []
    ensures forall n | n in chunk :: CursorAfter(server, n, rounds).Finished?
  {
    hide CursorAfter;
    if chunk != [] {
      NonePending(server, chunk[..|chunk| - 1], rounds);
      assert chunk == chunk[..|chunk| - 1] + [chunk[|chunk| - 1]];
    }
  }

  /** When no query of the chunk is pending, its names are complete. */
  lemma {:induction false} ChunkEnds(server: Server, unique: seq<string>, start: nat, end: nat, rounds: nat,
      ids: map<string, seq<string>>)
    requires start <= end <= |unique| && ChunkState(server, unique, start, end, rounds, ids) &&
        rounds <= OSV_MAX_BATCH_PAGES
    requires PendingAfter(server, unique[start..end], rounds) == []
    ensures forall next: nat | end <= next <= |unique| :: ChunkState(server, unique, end, next, 0, ids)
    ensures forall n | n in unique[start..end] :: CursorAfter(server, n, OSV_MAX_BATCH_PAGES).Finished?
  {
    hide PendingAfter, CursorAfter;
    var chunk := unique[start..end];
    NonePending(server, chunk, rounds);
    forall n | n in chunk ensures CursorAfter(server, n, OSV_MAX_BATCH_PAGES).Finished?
      && IdsAfter(server, n, OSV_MAX_BATCH_PAGES) == IdsAfter(server, n, rounds)
    {
      FinishedStays(server, n, rounds, OSV_MAX_BATCH_PAGES);
    }
    forall i | start <= i < end ensures unique[i] in chunk { assert unique[i] == chunk[i - start]; }
  }

  /** A chunk's first queries, none with a token. */
  method FirstQueries(server: Server, chunk: seq<string>) returns (pending: seq<(string, Option<string>)>)
    ensures pending == PendingAfter(server, chunk, 0)
  {
    pending := [];
    var i := 0;
    while i < |chunk|
      invariant 0 <= i <= |chunk| && pending == PendingAfter(server, chunk[..i], 0)
    {
      assert chunk[..i + 1][..i] == chunk[..i];
      pending := pending + [(chunk[i], None)];
      i := i + 1;
    }
    assert chunk[..i] == chunk;
  }

  /** Two right answers are the same, so no chunking and no order of finishing shows. */
  lemma {:induction false} AnswersAgree(server: Server, names: seq<string>, r: Response, r': Response)
    requires Answers(server, names, r) && Answers(server, names, r')
    ensures r == r'
  {
    hide AllPages, Concatenated;
    if r.Advisories? {
      forall n | n in names ensures n in r.idsByName && n in r'.idsByName && r.idsByName[n] == r'.idsByName[n] {
        assert FitsIn(server, n, OSV_MAX_BATCH_PAGES);
        var pages :| AllPages(server, n, None, pages) && |pages| <= OSV_MAX_BATCH_PAGES;
      }
      assert r.idsByName.Keys == r'.idsByName.Keys;
    }
  }

  // ---- The client against the reference ----

  /** After as many rounds as it has pages a name is finished and all its ids are there, in page order. */
  lemma {:induction false} RoundsFollowPages(server: Server, name: string, done: nat, pages: seq<Page>)
    requires CursorAfter(server, name, done).At? && AllPages(server, name, CursorAfter(server, name, done).token, pages)
    ensures CursorAfter(server, name, done + |pages|).Finished? && CursorAfter(server, name, done + |pages| - 1).At?
    ensures IdsAfter(server, name, done + |pages|) == IdsAfter(server, name, done) + Concatenated(pages)
    decreases |pages|
  {
    IdsOneMore(server, name, done);
    if pages[0].next.Some? {
      RoundsFollowPages(server, name, done + 1, pages[1..]);
    } else {
      assert pages[1..] == [];
      assert pages[0].ids + [] == pages[0].ids;
    }
  }

  /** A finished name has a full list of pages no longer than its rounds. */
  lemma {:induction false} FinishedHasPages(server: Server, name: string, done: nat,
      rounds: nat) returns (pages: seq<Page>)
    requires CursorAfter(server, name, done).At? && done <= rounds && CursorAfter(server, name, rounds).Finished?
    ensures AllPages(server, name, CursorAfter(server, name, done).token, pages) && |pages| <= rounds - done
    decreases rounds - done
  {
    var page := server(name, CursorAfter(server, name, done).token);
    if page.next.None? {
      pages := [page];
    } else {
      var rest := FinishedHasPages(server, name, done + 1, rounds);
      pages := [page] + rest;
      assert pages[1..] == rest;
    }
  }

  /** A name is cut off exactly when it has no full list of at most that many pages. */
  lemma {:induction false} CutOffIffTooLong(server: Server, name: string, limit: nat)
    ensures CursorAfter(server, name, limit).At? <==> !FitsIn(server, name, limit)
    ensures CursorAfter(server, name, limit).Finished? ==>
      forall pages | AllPages(server, name, None, pages) :: IdsAfter(server, name, limit) == Concatenated(pages)
  {
    assert CursorAfter(server, name, 0) == At(None);
    if CursorAfter(server, name, limit).Finished? {
      var pages := FinishedHasPages(server, name, 0, limit);
      assert FitsIn(server, name, limit);
    }
    forall pages | AllPages(server, name, None, pages)
      ensures |pages| <= limit <==> CursorAfter(server, name, limit).Finished?
      ensures |pages| <= limit ==> IdsAfter(server, name, limit) == Concatenated(pages)
    {
      RoundsFollowPages(server, name, 0, pages);
      if |pages| <= limit {
        FinishedStays(server, name, |pages|, limit);
      } else if CursorAfter(server, name, limit).Finished? {
        FinishedStays(server, name, limit, |pages| - 1);
        assert false;
      }
    }
  }

  /** Nothing asked yet. */
  lemma {:induction false} NothingAsked(server: Server, unique: seq<string>, ids: map<string, seq<string>>)
    requires ids == map n | n in unique :: []
    ensures forall next: nat | next <= |unique| :: ChunkState(server, unique, 0, next, 0, ids)
  {
    forall next: nat | next <= |unique| ensures ChunkState(server, unique, 0, next, 0, ids) {
      forall i | 0 <= i < |unique|
        ensures unique[i] in ids && ids[unique[i]] == [] && IdsAfter(server, unique[i], 0) == []
      {
      }
    }
  }

  lemma {:induction false} QueriesAreKnown(server: Server, unique: seq<string>, start: nat, end: nat, rounds: nat,
      ids: map<string, seq<string>>)
    requires start <= end <= |unique| && ChunkState(server, unique, start, end, rounds, ids)
    ensures forall q | q in PendingAfter(server, unique[start..end], rounds) ::
      q.0 in ids && q.0 in unique[start..end] && CursorAfter(server, q.0, rounds).At?
  {
    hide PendingAfter, CursorAfter;
    PendingAre(server, unique[start..end], rounds);
    forall n | n in unique[start..end] ensures n in unique {}
  }

  /** The page loop of one chunk. */
  method QueryChunk(server: Server, ghost unique: seq<string>, ghost start: nat, ghost end: nat, chunk: seq<string>,
      idsByName: map<string, seq<string>>)
    returns (failed: bool, ids: map<string, seq<string>>)
    requires start <= end <= |unique| && chunk == unique[start..end] && Distinct(unique)
    requires ChunkState(server, unique, start, end, 0, idsByName)
    ensures failed ==> exists n | n in chunk :: CursorAfter(server, n, OSV_MAX_BATCH_PAGES).At?
    ensures !failed ==> forall n | n in chunk :: CursorAfter(server, n, OSV_MAX_BATCH_PAGES).Finished?
    ensures !failed ==> forall next: nat | end <= next <= |unique| :: ChunkState(server, unique, end, next, 0, ids)
  {
    hide IdsAfter, CursorAfter, PendingAfter, Answered, Advance, Distinct, ChunkState;
    failed, ids := false, idsByName;
    var pending := FirstQueries(server, chunk);
    var pages := 0;
    while pending != []
      invariant 0 <= pages <= OSV_MAX_BATCH_PAGES && pending == PendingAfter(server, chunk, pages)
      invariant ChunkState(server, unique, start, end, pages, ids)
      decreases OSV_MAX_BATCH_PAGES - pages
    {
      QueriesAreKnown(server, unique, start, end, pages, ids);
      if pages + 1 > OSV_MAX_BATCH_PAGES {
        assert pending[0] in pending;
        failed := true;
        return;
      }
      PendingAdvances(server, chunk, pages);
      ghost var before := ids;
      pending, ids := AskRound(server, pending, ids);
      ChunkStep(server, unique, start, end, pages, before, ids);
      pages := pages + 1;
    }
    ChunkEnds(server, unique, start, end, pages, ids);
  }

  /**
   The right answer: a failure exactly when some name has more than 50 pages, and otherwise for each distinct
   name the ids of all its pages in order.
   */
  ghost predicate Answers(server: Server, names: seq<string>, r: Response) {
    && (r.TooManyPages? <==> exists n | n in names :: !FitsIn(server, n, 50))
    && (r.Advisories? ==>
          && r.idsByName.Keys == (set n | n in names)
          && forall n, pages | n in names && AllPages(server, n, None, pages) :: r.idsByName[n] == Concatenated(pages))
  }

  /** `query_batch_packages` past its cache. */
  method QueryBatchPackages(server: Server, names: seq<string>) returns (r: Response)
    ensures Answers(server, names, r)
  {
    r := QueryInChunks(server, names, OSV_BATCH_CHUNK_SIZE);
  }

  /** The chunk loop: the answer is right whatever the chunk size, and so does not depend on it. */
  method QueryInChunks(server: Server, names: seq<string>, chunkSize: nat) returns (r: Response)
    requires chunkSize > 0
    ensures Answers(server, names, r)
  {
    hide IdsAfter, CursorAfter, Answers, Distinct, Dedup, ChunkState;
    var unique := Dedup(names);
    DedupIsDistinct(names);
    var ids: map<string, seq<string>> := map n | n in unique :: [];
    NothingAsked(server, unique, ids);
    var start := 0;
    while start < |unique|
      invariant 0 <= start <= |unique|
      invariant forall next: nat | start <= next <= |unique| :: ChunkState(server, unique, start, next, 0, ids)
      invariant forall n | n in unique[..start] :: CursorAfter(server, n, OSV_MAX_BATCH_PAGES).Finished?
      decreases |unique| - start
    {
      var end := if start + chunkSize <= |unique| then start + chunkSize else |unique|;
      var chunk := unique[start..end];
      assert unique[..end] == unique[..start] + chunk;
      var failed;
      failed, ids := QueryChunk(server, unique, start, end, chunk, ids);
      if failed {
        UnfinishedFails(server, names, chunk);
        return TooManyPages;
      }
      start := end;
    }
    assert unique[..start] == unique;
    assert ChunkState(server, unique, start, start, 0, ids);
    FinishedAnswers(server, names, unique, ids);
    r := Advisories(ids);
  }

  lemma {:induction false} UnfinishedFails(server: Server, names: seq<string>, chunk: seq<string>)
    requires forall n | n in chunk :: n in names
    requires exists n | n in chunk :: CursorAfter(server, n, OSV_MAX_BATCH_PAGES).At?
    ensures Answers(server, names, TooManyPages)
  {
    hide FitsIn, CursorAfter;
    var n :| n in chunk && CursorAfter(server, n, OSV_MAX_BATCH_PAGES).At?;
    CutOffIffTooLong(server, n, OSV_MAX_BATCH_PAGES);
  }

  lemma {:induction false} FinishedAnswers(server: Server, names: seq<string>, unique: seq<string>,
      ids: map<string, seq<string>>)
    requires forall n :: n in unique <==> n in names
    requires ChunkState(server, unique, |unique|, |unique|, 0, ids)
    requires forall n | n in unique :: CursorAfter(server, n, OSV_MAX_BATCH_PAGES).Finished?
    ensures Answers(server, names, Advisories(ids))
  {
    hide FitsIn, CursorAfter, IdsAfter, AllPages, Concatenated;
    forall n | n in names
      ensures FitsIn(server, n, OSV_MAX_BATCH_PAGES) && n in ids
      ensures forall pages | AllPages(server, n, None, pages) :: ids[n] == Concatenated(pages)
    {
      CutOffIffTooLong(server, n, OSV_MAX_BATCH_PAGES);
      var i :| 0 <= i < |unique| && unique[i] == n;
    }
  }
}
