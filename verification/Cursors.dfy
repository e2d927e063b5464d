/**
 Cursor paging (section 2 of RFC 9865): tokens, the parameters of a request, and walks over
 a fixed result list forward and back.
 */
module Cursors {
  import opened Text
  import opened RootSearch

  datatype Problem = InvalidCursor | InvalidValue | TooMany

  datatype Result<T> = Ok(value: T) | Err(problem: Problem)

  // ----- tokens

  /** A token's claims; an offset or an expiry may be missing from what a client sends. */
  datatype Payload = Payload(workspace: string, offset: Option<int>, expires: Option<int>, pageSize: int, sig: string)

  /**
   The encodings the server relies on: payloads as token text and back, workspace names and
   back, and the signature over the claims.
   */
  datatype Codec = Codec(
    text: Payload -> string,
    read: string -> Option<Payload>,
    name: int -> string,
    parse: string -> Option<int>,
    sign: (string, int, int, int) -> string)

  /** Reading undoes writing, tokens and signatures are not empty. */
  ghost predicate Faithful(c: Codec) {
    && (forall p :: c.read(c.text(p)) == Some(p) && c.text(p) != "")
    && (forall ws :: c.parse(c.name(ws)) == Some(ws))
    && (forall w, o, e, s :: c.sign(w, o, e, s) != "")
  }

  function Encode(c: Codec, ws: int, offset: int, pageSize: int, timeout: int, now: int): Result<string> {
    var seconds := if timeout <= 0 then 3600 else timeout;
    if offset < 0 then Err(InvalidCursor)
    else
      var size := if pageSize < 0 then 0 else pageSize;
      var exp := now + seconds;
      Ok(c.text(Payload(c.name(ws), Some(offset), Some(exp), size, c.sign(c.name(ws), offset, exp, size))))
  }

  /** The offset and page size; the empty token asks for the first page. */
  function Decode(c: Codec, token: string, ws: int, now: int): Result<(int, int)> {
    if token == "" then Ok((0, 0))
    else
      match c.read(token)
      case None => Err(InvalidCursor)
      case Some(p) =>
        if c.parse(p.workspace) != Some(ws) then Err(InvalidCursor)
        else if p.offset.None? || p.expires.None? || p.offset.value < 0 then Err(InvalidCursor)
        else if p.expires.value <= now then Err(InvalidCursor)
        else if p.sig == "" || p.sig != c.sign(p.workspace, p.offset.value, p.expires.value, p.pageSize) then Err(InvalidCursor)
        else Ok((p.offset.value, p.pageSize))
  }

  /** A token is good for the workspace it was made for, until it expires, and then gives back what it was made from. */
  lemma DecodeUndoesEncode(c: Codec, ws: int, offset: nat, pageSize: int, timeout: int, now: int, otherWs: int, later: int)
    requires Faithful(c)
    ensures var seconds := if timeout <= 0 then 3600 else timeout;
            var size := if pageSize < 0 then 0 else pageSize;
            Decode(c, Encode(c, ws, offset, pageSize, timeout, now).value, otherWs, later)
            == if otherWs == ws && later < now + seconds then Ok((offset, size)) else Err(InvalidCursor)
  {
  }

  /** A token is read exactly if it is empty, or signed, unexpired and of this workspace, with an offset that is not negative. */
  lemma AcceptedExactlyIf(c: Codec, token: string, ws: int, now: int)
    ensures token == "" ==> Decode(c, token, ws, now) == Ok((0, 0))
    ensures token != "" ==>
              (Decode(c, token, ws, now).Ok? <==>
                && c.read(token).Some?
                && var p := c.read(token).value;
                   && c.parse(p.workspace) == Some(ws) && p.offset.Some? && p.offset.value >= 0 && p.expires.Some? && p.expires.value > now
                   && p.sig != "" && p.sig == c.sign(p.workspace, p.offset.value, p.expires.value, p.pageSize))
  {
  }

  /** Whatever token is accepted carries the signature of its own claims, unexpired, for this workspace. */
  lemma AcceptedIsSigned(c: Codec, token: string, ws: int, now: int)
    requires Decode(c, token, ws, now).Ok? && token != ""
    ensures var p := c.read(token).value;
            && c.parse(p.workspace) == Some(ws) && now < p.expires.value && 0 <= p.offset.value
            && p.sig == c.sign(p.workspace, p.offset.value, p.expires.value, p.pageSize)
            && Decode(c, token, ws, now).value == (p.offset.value, p.pageSize)
  {
  }

  // ----- request parameters

  /** A parameter as sent: absent or blank, an integer, or something else. */
  datatype Param = Absent | Int(n: int) | Garbage

  datatype CursorParam = NoCursor | Token(t: string) | NotText

  datatype Pagination = Pagination(isCursor: bool, offset: nat, count: nat, startIndex: int, prevPageSize: int)

  function Clamp(n: int): nat {
    if n < 0 then 0 else if n > MAX_PAGE then MAX_PAGE else n
  }

  function AtLeastOne(n: int): int {
    if n < 1 then 1 else n
  }

  /** Query first, then the body over it; cursor and startIndex exclude each other. */
  method ParsePagination(
    c: Codec, ws: int, now: int, defaultCount: nat,
    queryCursor: Option<string>, queryStart: Param, queryCount: Param,
    bodyCursor: CursorParam, bodyStart: Param, bodyCount: Param) returns (r: Result<Pagination>)
    requires defaultCount <= MAX_PAGE
    ensures var start := if bodyStart == Absent then queryStart else bodyStart;
            var count := if bodyCount == Absent then queryCount else bodyCount;
            var hasCursor := queryCursor.Some? || bodyCursor.Token?;
            var token := if bodyCursor.Token? then bodyCursor.t else if queryCursor.Some? then queryCursor.value else "";
            && (r.Ok? ==>
                  && (r.value.isCursor <==> hasCursor)
                  && r.value.count == (if count.Int? then (if count.n < 0 then 0 else if count.n > 200 then 200 else count.n) else defaultCount))
            && (r.Ok? && hasCursor ==> start == Absent && Decode(c, token, ws, now) == Ok((r.value.offset, r.value.prevPageSize)))
            && (r.Ok? && !hasCursor ==>
                  && r.value.offset == r.value.startIndex - 1
                  && r.value.startIndex == (if start.Int? && start.n > 1 then start.n else 1))
            && (r.Err? <==>
                  || queryStart.Garbage? || queryCount.Garbage? || bodyCursor.NotText? || bodyStart.Garbage? || bodyCount.Garbage?
                  || (hasCursor && (start != Absent || Decode(c, token, ws, now).Err? || (count.Int? && count.n > 200))))
  {
    var hasCursor, cursorVal := queryCursor.Some?, if queryCursor.Some? then queryCursor.value else "";
    var startIndexVal, hasStartIndex := 1, false;
    match queryStart {
      case Absent =>
      case Garbage => return Err(InvalidValue);
      case Int(n) =>
        hasStartIndex := true;
        startIndexVal := AtLeastOne(n);
    }
    var count, hasExplicitCount, rawExplicitCount := defaultCount, false, 0;
    match queryCount {
      case Absent =>
      case Garbage => return Err(InvalidValue);
      case Int(n) =>
        hasExplicitCount, rawExplicitCount := true, n;
        count := Clamp(n);
    }
    match bodyCursor {
      case NoCursor =>
      case NotText => return Err(InvalidCursor);
      case Token(t) => hasCursor, cursorVal := true, t;
    }
    match bodyStart {
      case Absent =>
      case Garbage => return Err(InvalidValue);
      case Int(n) =>
        hasStartIndex := true;
        startIndexVal := AtLeastOne(n);
    }
    match bodyCount {
      case Absent =>
      case Garbage => return Err(InvalidValue);
      case Int(n) =>
        hasExplicitCount, rawExplicitCount := true, n;
        count := Clamp(n);
    }
    if hasCursor && hasStartIndex {
      return Err(InvalidValue);
    }
    if hasCursor {
      var decoded := Decode(c, cursorVal, ws, now);
      if decoded.Err? {
        return Err(decoded.problem);
      }
      if hasExplicitCount && rawExplicitCount > MAX_PAGE {
        return Err(TooMany);
      }
      return Ok(Pagination(true, decoded.value.0, count, 0, decoded.value.1));
    }
    return Ok(Pagination(false, startIndexVal - 1, count, startIndexVal, 0));
  }

  // ----- responses and walks

  /** A position: where a page starts and the size of the page that led there; 0 when none did. */
  datatype Position = Position(offset: nat, pageSize: nat)

  datatype Page<R> = Page(resources: seq<R>, previous: Option<Position>, next: Option<Position>)

  /** The page at a position, with the positions its two cursors carry. */
  function Respond<R>(results: seq<R>, at: Position, count: nat): Page<R> {
    var resources := Slice(results, at.offset, count);
    var step := if at.pageSize <= 0 then count else at.pageSize;
    var back := if at.offset < step || step <= 0 then 0 else at.offset - step;
    var nextOffset := at.offset + |resources|;
    Page(resources,
         if at.offset > 0 then Some(Position(back, step)) else None,
         if |resources| > 0 && nextOffset < |results| then Some(Position(nextOffset, |resources|)) else None)
  }

  /** Follows next cursors from a position, asking for the given page sizes, and collects what it sees. */
  function Walk<R>(results: seq<R>, at: Position, counts: seq<nat>): (seq<R>, Option<Position>)
    decreases |counts|
  {
    if counts == [] then ([], Some(at))
    else
      var page := Respond(results, at, counts[0]);
      if page.next.None? then (page.resources, None)
      else
        var (rest, stop) := Walk(results, page.next.value, counts[1..]);
        (page.resources + rest, stop)
  }

  predicate Positive(counts: seq<nat>) {
    forall i | 0 <= i < |counts| :: counts[i] >= 1
  }

  /** A page shows what lies between its position and the next one. */
  lemma PageIsSlice<R>(results: seq<R>, at: Position, count: nat)
    requires at.offset <= |results| && count >= 1
    ensures var page := Respond(results, at, count);
            match page.next
            case None => page.resources == results[at.offset..]
            case Some(p) => at.offset < p.offset < |results| && page.resources == results[at.offset..p.offset]
  {
  }

  lemma Seen<R>(results: seq<R>, a: nat, b: nat, c: nat)
    requires a <= b <= c <= |results|
    ensures results[a..b] + results[b..c] == results[a..c]
  {
  }

  /**
   What is seen is the list from the position on, in order and without repetition, up to the
   position reached; a walk that has ended has seen all of it.
   */
  lemma {:induction false} WalkSeesEachOnce<R>(results: seq<R>, at: Position, counts: seq<nat>)
    requires at.offset <= |results| && Positive(counts)
    ensures var (seen, stop) := Walk(results, at, counts);
            match stop
            case None => seen == results[at.offset..]
            case Some(p) => at.offset + |counts| <= p.offset <= |results| && seen == results[at.offset..p.offset]
                            && (counts != [] ==> p.offset < |results|)
    decreases |counts|
  {
    if counts != [] {
      var page := Respond(results, at, counts[0]);
      PageIsSlice(results, at, counts[0]);
      if page.next.Some? {
        var p := page.next.value;
        WalkSeesEachOnce(results, p, counts[1..]);
        match Walk(results, p, counts[1..]).1
        case None => Seen(results, at.offset, p.offset, |results|);
        case Some(q) => Seen(results, at.offset, p.offset, q.offset);
      }
    }
  }

  /** A walk from the start ends within as many pages as there are results, having visited all. */
  lemma WalkEnds<R>(results: seq<R>, counts: seq<nat>)
    requires Positive(counts) && |counts| >= |results| && counts != []
    ensures Walk(results, Position(0, 0), counts) == (results, None)
  {
    WalkSeesEachOnce(results, Position(0, 0), counts);
  }

  /** After a step forward the previous cursor leads back to the offset just left, and asks for that page again. */
  lemma PreviousUndoesNext<R>(results: seq<R>, at: Position, count: nat, count2: nat)
    requires Respond(results, at, count).next.Some?
    ensures var next := Respond(results, at, count).next.value;
            Respond(results, next, count2).previous == Some(Position(at.offset, |Respond(results, at, count).resources|))
  {
  }

  /** Following previous cursors: the offsets passed, whatever page sizes are asked for. */
  function Back<R>(results: seq<R>, at: Position, counts: seq<nat>): seq<nat>
    decreases |counts|
  {
    if counts == [] || Respond(results, at, counts[0]).previous.None? then [at.offset]
    else [at.offset] + Back(results, Respond(results, at, counts[0]).previous.value, counts[1..])
  }

  /** They strictly decrease, and with enough requests they reach 0. */
  lemma {:induction false} BackDecreasesToZero<R>(results: seq<R>, at: Position, counts: seq<nat>)
    ensures var offsets := Back(results, at, counts);
            && offsets != [] && offsets[0] == at.offset
            && (forall i | 0 <= i < |offsets| - 1 :: offsets[i + 1] < offsets[i])
            && (|counts| >= at.offset ==> offsets[|offsets| - 1] == 0)
    decreases |counts|
  {
    if counts != [] && Respond(results, at, counts[0]).previous.Some? {
      var p := Respond(results, at, counts[0]).previous.value;
      assert p.offset < at.offset;
      BackDecreasesToZero(results, p, counts[1..]);
      var rest, offsets := Back(results, p, counts[1..]), Back(results, at, counts);
      assert offsets == [at.offset] + rest;
      forall i | 0 <= i < |offsets| - 1 ensures offsets[i + 1] < offsets[i] {
        if i > 0 {
          assert offsets[i + 1] == rest[i] && offsets[i] == rest[i - 1];
          assert rest[i - 1 + 1] < rest[i - 1];
        }
      }
    }
  }

  /** Where a request stands; a negative page size counts as none. */
  function At(pag: Pagination): Position {
    Position(pag.offset, if pag.prevPageSize < 0 then 0 else pag.prevPageSize)
  }

  /** The cursor that is handed out for a position. */
  function TokenOf(c: Codec, ws: int, now: int, to: Option<Position>): Option<string> {
    match to
    case None => None
    case Some(p) => Some(Encode(c, ws, p.offset, p.pageSize, 3600, now).value)
  }

  /** Until it expires it is read as that position. */
  lemma TokenLeads(c: Codec, ws: int, now: int, to: Position, later: int)
    requires Faithful(c) && later < now + 3600
    ensures Decode(c, TokenOf(c, ws, now, Some(to)).value, ws, later) == Ok((to.offset, to.pageSize))
  {
    DecodeUndoesEncode(c, ws, to.offset, to.pageSize, 3600, now, ws, later);
  }

  /** The response the handler builds for a page of a result list: its cursors are those of the page's neighbours. */
  method BuildListResponse<R>(c: Codec, ws: int, now: int, pag: Pagination, total: nat, resources: seq<R>, ghost results: seq<R>)
    returns (previousCursor: Option<string>, nextCursor: Option<string>)
    requires total == |results| && resources == Slice(results, pag.offset, pag.count)
    ensures !pag.isCursor ==> previousCursor.None? && nextCursor.None?
    ensures pag.isCursor ==> previousCursor == TokenOf(c, ws, now, Respond(results, At(pag), pag.count).previous)
    ensures pag.isCursor ==> nextCursor == TokenOf(c, ws, now, Respond(results, At(pag), pag.count).next)
  {
    previousCursor, nextCursor := None, None;
    if pag.isCursor {
      if pag.offset > 0 {
        var step: int := pag.prevPageSize;
        if step <= 0 {
          step := pag.count;
        }
        var prevOffset := pag.offset - step;
        if prevOffset < 0 || step <= 0 {
          prevOffset := 0;
        }
        var pc := Encode(c, ws, prevOffset, step, 3600, now);
        if pc.Ok? {
          previousCursor := Some(pc.value);
        }
      }
      if |resources| > 0 {
        var nextOffset := pag.offset + |resources|;
        if nextOffset < total {
          var nc := Encode(c, ws, nextOffset, |resources|, 3600, now);
          if nc.Ok? {
            nextCursor := Some(nc.value);
          }
        }
      }
    }
  }

  // ----- whole requests, and walks over tokens

  datatype Reply<R> = Reply(resources: seq<R>, previous: Option<string>, next: Option<string>)

  /** What a request with a cursor is answered, or None where it is rejected. */
  function Answer<R>(c: Codec, ws: int, now: int, defaultCount: nat, cursor: string, count: Param, results: seq<R>): Option<Reply<R>> {
    match Decode(c, cursor, ws, now)
    case Err(_) => None
    case Ok((offset, size)) =>
      if offset < 0 || count.Garbage? || (count.Int? && count.n > MAX_PAGE) then None
      else
        var page := Respond(results, Position(offset, if size < 0 then 0 else size),
                            if count.Int? then Clamp(count.n) else defaultCount);
        Some(Reply(page.resources, TokenOf(c, ws, now, page.previous), TokenOf(c, ws, now, page.next)))
  }

  /** A listing handler: parameters, the database's slice, the response. */
  method ServeList<R>(c: Codec, ws: int, now: int, defaultCount: nat, cursor: string, count: Param, results: seq<R>)
    returns (reply: Option<Reply<R>>)
    requires defaultCount <= MAX_PAGE
    ensures reply == Answer(c, ws, now, defaultCount, cursor, count, results)
  {
    var pag := ParsePagination(c, ws, now, defaultCount, Some(cursor), Absent, count, NoCursor, Absent, Absent);
    if pag.Err? {
      return None;
    }
    var resources := Slice(results, pag.value.offset, pag.value.count);
    var previous, next := BuildListResponse(c, ws, now, pag.value, |results|, resources, results);
    return Some(Reply(resources, previous, next));
  }

  /** One request of a client: when it arrives and how many results it asks for. */
  datatype Ask = Ask(now: int, count: nat)

  /** Page sizes the server takes as they are, and no token left to expire. */
  predicate Prompt(asks: seq<Ask>) {
    && (forall i | 0 <= i < |asks| :: 1 <= asks[i].count <= MAX_PAGE)
    && forall i | 0 <= i < |asks| - 1 :: asks[i + 1].now < asks[i].now + 3600
  }

  function Counts(asks: seq<Ask>): (counts: seq<nat>)
    ensures |counts| == |asks| && forall i | 0 <= i < |asks| :: counts[i] == asks[i].count
  {
    seq(|asks|, i requires 0 <= i < |asks| => asks[i].count)
  }

  /** What a client sees that follows nextCursor from a cursor on, and the cursor it is left with; None once there is none. */
  function WalkTokens<R>(c: Codec, ws: int, results: seq<R>, cursor: string, asks: seq<Ask>): (seq<R>, Option<string>)
    decreases |asks|
  {
    if asks == [] then ([], Some(cursor))
    else
      match Answer(c, ws, asks[0].now, MAX_PAGE, cursor, Int(asks[0].count), results)
      case None => ([], Some(cursor))
      case Some(reply) =>
        if reply.next.None? then (reply.resources, None)
        else
          var (rest, stop) := WalkTokens(c, ws, results, reply.next.value, asks[1..]);
          (reply.resources + rest, stop)
  }

  /** A walk over tokens is the walk over the positions they stand for. */
  lemma {:induction false} TokenWalkIsWalk<R>(c: Codec, ws: int, results: seq<R>, cursor: string, at: Position, asks: seq<Ask>)
    requires Faithful(c) && Prompt(asks)
    requires asks != [] ==> Decode(c, cursor, ws, asks[0].now) == Ok((at.offset, at.pageSize))
    ensures var (seen, stop) := WalkTokens(c, ws, results, cursor, asks);
            var (seen', stop') := Walk(results, at, Counts(asks));
            seen == seen' && stop.Some? == stop'.Some?
    decreases |asks|
  {
    if asks != [] {
      var counts := Counts(asks);
      var page := Respond(results, at, counts[0]);
      assert counts[1..] == Counts(asks[1..]);
      if page.next.Some? {
        var next := TokenOf(c, ws, asks[0].now, page.next).value;
        if |asks| > 1 {
          assert asks[0 + 1].now < asks[0].now + 3600;
          TokenLeads(c, ws, asks[0].now, page.next.value, asks[1].now);
        }
        TokenWalkIsWalk(c, ws, results, next, page.next.value, asks[1..]);
      }
    }
  }

  /**
   A client that starts without a cursor and follows nextCursor in time sees the results in order,
   each once; while it has a cursor left there is more, and when it has none it has seen all.
   */
  lemma TokenWalkSeesEachOnce<R>(c: Codec, ws: int, results: seq<R>, asks: seq<Ask>)
    requires Faithful(c) && Prompt(asks) && asks != []
    ensures var (seen, stop) := WalkTokens(c, ws, results, "", asks);
            && seen <= results
            && (stop.None? <==> seen == results)
            && (stop.Some? ==> |asks| <= |seen|)
            && (|asks| >= |results| ==> stop.None?)
  {
    TokenWalkIsWalk(c, ws, results, "", Position(0, 0), asks);
    WalkSeesEachOnce(results, Position(0, 0), Counts(asks));
  }

  /** The offsets a client passes that follows previousCursor from a cursor on. */
  function BackTokens<R>(c: Codec, ws: int, results: seq<R>, cursor: string, asks: seq<Ask>): seq<int>
    decreases |asks|
  {
    if asks == [] then []
    else
      match (Decode(c, cursor, ws, asks[0].now), Answer(c, ws, asks[0].now, MAX_PAGE, cursor, Int(asks[0].count), results))
      case (Ok((offset, _)), Some(reply)) =>
        [offset] + if reply.previous.None? then [] else BackTokens(c, ws, results, reply.previous.value, asks[1..])
      case _ => []
  }

  predicate Decreasing(s: seq<int>) {
    forall i | 0 < i < |s| :: s[i] < s[i - 1]
  }

  /** To 0, or as far as n requests go. */
  predicate GoesDown(s: seq<int>, n: nat) {
    s != [] && Decreasing(s) && (s[|s| - 1] == 0 || |s| == n)
  }

  lemma DecreasingFrom(x: int, rest: seq<int>, n: nat)
    requires GoesDown(rest, n) && rest[0] < x
    ensures GoesDown([x] + rest, n + 1)
  {
    var s := [x] + rest;
    forall i | 0 < i < |s| ensures s[i] < s[i - 1] {
      assert s[i] == rest[i - 1] && (i > 1 ==> s[i - 1] == rest[i - 2]);
    }
    assert s[|s| - 1] == rest[|rest| - 1];
  }

  /** They strictly decrease, and the client stops at offset 0 or when it stops asking. */
  lemma {:induction false} TokensGoBack<R>(c: Codec, ws: int, results: seq<R>, cursor: string, at: Position, asks: seq<Ask>)
    requires Faithful(c) && Prompt(asks) && asks != []
    requires Decode(c, cursor, ws, asks[0].now) == Ok((at.offset, at.pageSize))
    ensures var offsets := BackTokens(c, ws, results, cursor, asks);
            offsets != [] && offsets[0] == at.offset && GoesDown(offsets, |asks|)
    decreases |asks|
  {
    var page := Respond(results, at, asks[0].count);
    OneBack(c, ws, results, cursor, at, asks);
    if page.previous.Some? && |asks| > 1 {
      var p, token := page.previous.value, TokenOf(c, ws, asks[0].now, page.previous).value;
      assert asks[0 + 1].now < asks[0].now + 3600;
      TokenLeads(c, ws, asks[0].now, p, asks[1].now);
      TokensGoBack(c, ws, results, token, p, asks[1..]);
      DecreasingFrom(at.offset, BackTokens(c, ws, results, token, asks[1..]), |asks| - 1);
    }
  }

  lemma OneBack<R>(c: Codec, ws: int, results: seq<R>, cursor: string, at: Position, asks: seq<Ask>)
    requires asks != [] && 1 <= asks[0].count <= MAX_PAGE
    requires Decode(c, cursor, ws, asks[0].now) == Ok((at.offset, at.pageSize))
    ensures var previous := TokenOf(c, ws, asks[0].now, Respond(results, at, asks[0].count).previous);
            BackTokens(c, ws, results, cursor, asks)
            == [at.offset] + if previous.None? then [] else BackTokens(c, ws, results, previous.value, asks[1..])
  {
  }

  /** The previousCursor of the page that a nextCursor leads to, leads back to the offset just left. */
  lemma TokenBackUndoesNext<R>(c: Codec, ws: int, results: seq<R>, cursor: string, first: Ask, second: Ask, later: int)
    requires Faithful(c) && Prompt([first, second]) && later < second.now + 3600
    requires Answer(c, ws, first.now, MAX_PAGE, cursor, Int(first.count), results).Some?
    requires Answer(c, ws, first.now, MAX_PAGE, cursor, Int(first.count), results).value.next.Some?
    ensures var reply := Answer(c, ws, first.now, MAX_PAGE, cursor, Int(first.count), results).value;
            var second' := Answer(c, ws, second.now, MAX_PAGE, reply.next.value, Int(second.count), results);
            && second'.Some? && second'.value.previous.Some?
            && Decode(c, second'.value.previous.value, ws, later) == Ok((Decode(c, cursor, ws, first.now).value.0, |reply.resources|))
  {
    var (offset, size) := Decode(c, cursor, ws, first.now).value;
    var at := Position(offset, if size < 0 then 0 else size);
    var next := Respond(results, at, first.count).next.value;
    assert [first, second][0 + 1].now < [first, second][0].now + 3600;
    assert [first, second][0].count == first.count && [first, second][1].count == second.count;
    TokenLeads(c, ws, first.now, next, second.now);
    PreviousUndoesNext(results, at, first.count, second.count);
    TokenLeads(c, ws, second.now, Respond(results, next, second.count).previous.value, later);
  }
}
