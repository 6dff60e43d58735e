/** The file-sharing client: the string helpers around its HTTP requests, the
    upload queue with the bounded retry of game events, and the early returns
    taken when the ONLINE option is off.

    Every request is an outcome passed in: `network` maps the (escaped) URL a
    request goes to onto what libcurl reports for it. The ONLINE option is
    passed as the value it has at the time of the call. */
module Sharing {
  import opened Wrappers

  /** One record of the game list served by the site. */
  datatype GameInfo = GameInfo(displayName: string, filename: string, time: int,
                               totalGames: int, wonGames: int, version: int)

  /** What libcurl reports for one request: whether the handle could be
      created, the error of the transfer if it failed, and the body received. */
  datatype Transfer = Transfer(initialised: bool, error: Option<string>, body: string)

  // ---------------------------------------------------------------------------
  // dataFun

  /** The string a write callback appends to. */
  class Buffer {
    var contents: string

    constructor ()
      ensures contents == []
    {
      contents := [];
    }
  }

  /** dataFun: the write callback takes all `size * nmemb` bytes curl hands it,
      appends them to the buffer and reports them consumed. */
  method DataFun(incoming: string, size: nat, nmemb: nat, buf: Buffer) returns (consumed: nat)
    requires size * nmemb <= |incoming|
    modifies buf
    ensures consumed == size * nmemb
    ensures buf.contents == old(buf.contents) + incoming[..consumed]
  {
    buf.contents := buf.contents + incoming[..size * nmemb];
    consumed := size * nmemb;
  }

  // ---------------------------------------------------------------------------
  // escapeUrl

  /** The number of spaces in `s`. */
  function SpaceCount(s: string): nat
  {
    if s == [] then 0 else (if s[0] == ' ' then 1 else 0) + SpaceCount(s[1..])
  }

  /** escapeUrl: every space becomes "%20"; nothing else changes. */
  function EscapeUrl(s: string): (r: string)
    ensures ' ' !in r
    ensures ' ' !in s ==> r == s
    ensures |r| == |s| + 2 * SpaceCount(s)
  {
    if s == [] then []
    else (if s[0] == ' ' then "%20" else [s[0]]) + EscapeUrl(s[1..])
  }

  /** The inverse reading: every "%20" becomes a space again. */
  function UnescapeSpaces(s: string): string
  {
    if s == [] then []
    else if |s| >= 3 && s[..3] == "%20" then " " + UnescapeSpaces(s[3..])
    else [s[0]] + UnescapeSpaces(s[1..])
  }

  lemma UnescapeSpaceStep(rest: string)
    ensures UnescapeSpaces("%20" + rest) == " " + UnescapeSpaces(rest)
  {
    var t := "%20" + rest;
    assert |t| >= 3 && t[..3] == "%20";
    assert t[3..] == rest;
  }

  lemma UnescapeOtherStep(c: char, rest: string)
    requires c != '%'
    ensures UnescapeSpaces([c] + rest) == [c] + UnescapeSpaces(rest)
  {
    var t := [c] + rest;
    assert t[0] == c;
    assert |t| >= 3 ==> t[..3][0] == c;
    assert t[1..] == rest;
  }

  /** Escaping loses nothing for strings that hold no '%' of their own. */
  lemma {:induction false} UnescapeInvertsEscape(s: string)
    requires '%' !in s
    ensures UnescapeSpaces(EscapeUrl(s)) == s
  {
    if s != [] {
      var rest := EscapeUrl(s[1..]);
      UnescapeInvertsEscape(s[1..]);
      if s[0] == ' ' {
        assert EscapeUrl(s) == "%20" + rest;
        UnescapeSpaceStep(rest);
      } else {
        assert EscapeUrl(s) == [s[0]] + rest;
        UnescapeOtherStep(s[0], rest);
      }
      assert s == [s[0]] + s[1..];
    }
  }

  /** Escaping works piece by piece, so a URL is escaped as its parts are. */
  lemma {:induction false} EscapeDistributes(a: string, b: string)
    ensures EscapeUrl(a + b) == EscapeUrl(a) + EscapeUrl(b)
  {
    if a != [] {
      assert (a + b)[0] == a[0];
      assert (a + b)[1..] == a[1..] + b;
      EscapeDistributes(a[1..], b);
    } else {
      assert a + b == b;
    }
  }

  // ---------------------------------------------------------------------------
  // parseGames

  /** The record a line of at least six fields stands for; `toInt` reads a
      decimal field, and None is a field it cannot read (the parsing exception
      of `fromString<int>`). */
  function Record(fields: seq<string>, toInt: string -> Option<int>): (r: Option<GameInfo>)
    requires |fields| >= 6
    ensures r.Some? <==> toInt(fields[2]).Some? && toInt(fields[3]).Some?
                         && toInt(fields[4]).Some? && toInt(fields[5]).Some?
    ensures r.Some? ==> r.value.displayName == fields[0] && r.value.filename == fields[1]
  {
    match (toInt(fields[2]), toInt(fields[3]), toInt(fields[4]), toInt(fields[5]))
    case (Some(time), Some(total), Some(won), Some(version)) =>
      Some(GameInfo(fields[0], fields[1], time, total, won, version))
    case _ => None
  }

  /** The records of the lines, each line already split at ','; None when a
      line of six fields or more has a number that cannot be read, as the
      parsing exception then leaves the parse. */
  function ParsedGames(lines: seq<seq<string>>, toInt: string -> Option<int>): Option<seq<GameInfo>>
  {
    if lines == [] then Some([])
    else
      var last := lines[|lines| - 1];
      match ParsedGames(lines[..|lines| - 1], toInt)
      case None => None
      case Some(games) =>
        if |last| < 6 then Some(games)
        else if Record(last, toInt).None? then None
        else Some(games + [Record(last, toInt).value])
  }

  /** parseGames: one record per line of six fields or more, in line order;
      shorter lines are skipped, and an unreadable number ends the parse with
      the exception (None). */
  method ParseGames(lines: seq<seq<string>>, toInt: string -> Option<int>) returns (games: Option<seq<GameInfo>>)
    ensures games == ParsedGames(lines, toInt)
  {
    var parsed: seq<GameInfo> := [];
    var i := 0;
    while i < |lines|
      invariant 0 <= i <= |lines|
      invariant ParsedGames(lines[..i], toInt) == Some(parsed)
    {
      assert lines[..i + 1][..i] == lines[..i];
      var fields := lines[i];
      if |fields| >= 6 {
        var record := Record(fields, toInt);
        if record.None? {
          assert ParsedGames(lines[..i + 1], toInt) == None;
          ParseFailureSticks(lines[..i + 1], lines[i + 1..], toInt);
          assert lines[..i + 1] + lines[i + 1..] == lines;
          return None;
        }
        parsed := parsed + [record.value];
      }
      i := i + 1;
    }
    assert lines[..|lines|] == lines;
    games := Some(parsed);
  }

  /** Once a line has failed to parse, no later line brings the parse back. */
  lemma {:induction false} ParseFailureSticks(a: seq<seq<string>>, b: seq<seq<string>>, toInt: string -> Option<int>)
    requires ParsedGames(a, toInt).None?
    ensures ParsedGames(a + b, toInt).None?
  {
    if b == [] {
      assert a + b == a;
    } else {
      var b' := b[..|b| - 1];
      assert (a + b)[..|a + b| - 1] == a + b';
      ParseFailureSticks(a, b', toInt);
    }
  }

  /** Parsing a text is parsing its two halves one after the other: it
      succeeds exactly when both halves do, with their records in order. */
  lemma {:induction false} ParsedGamesDistributes(a: seq<seq<string>>, b: seq<seq<string>>, toInt: string -> Option<int>)
    ensures ParsedGames(a + b, toInt).Some? <==> ParsedGames(a, toInt).Some? && ParsedGames(b, toInt).Some?
    ensures ParsedGames(a + b, toInt).Some? ==>
              ParsedGames(a + b, toInt).value == ParsedGames(a, toInt).value + ParsedGames(b, toInt).value
  {
    if b == [] {
      assert a + b == a;
    } else {
      var b' := b[..|b| - 1];
      assert (a + b)[..|a + b| - 1] == a + b';
      assert (a + b)[|a + b| - 1] == b[|b| - 1];
      ParsedGamesDistributes(a, b', toInt);
    }
  }

  /** The parse fails exactly when some line of six fields or more has a
      number that cannot be read. */
  lemma {:induction false} ParseFailsOnUnreadableNumber(lines: seq<seq<string>>, toInt: string -> Option<int>)
    ensures ParsedGames(lines, toInt).None? <==>
              exists i :: 0 <= i < |lines| && |lines[i]| >= 6 && Record(lines[i], toInt).None?
  {
    if lines != [] {
      var init := lines[..|lines| - 1];
      ParseFailsOnUnreadableNumber(init, toInt);
      if exists i :: 0 <= i < |init| && |init[i]| >= 6 && Record(init[i], toInt).None? {
        var i :| 0 <= i < |init| && |init[i]| >= 6 && Record(init[i], toInt).None?;
        assert lines[i] == init[i];
      }
      if exists i :: 0 <= i < |lines| && |lines[i]| >= 6 && Record(lines[i], toInt).None? {
        var i :| 0 <= i < |lines| && |lines[i]| >= 6 && Record(lines[i], toInt).None?;
        if i < |init| {
          assert init[i] == lines[i];
        }
      }
    }
  }

  /** Every record comes from a line of six fields or more, there are no more
      records than lines, and a text of short lines parses to no records. */
  lemma {:induction false} RecordsComeFromLongLines(lines: seq<seq<string>>, toInt: string -> Option<int>)
    ensures ParsedGames(lines, toInt).Some? ==>
              forall g :: g in ParsedGames(lines, toInt).value ==>
                exists i :: 0 <= i < |lines| && |lines[i]| >= 6 && Record(lines[i], toInt) == Some(g)
    ensures ParsedGames(lines, toInt).Some? ==> |ParsedGames(lines, toInt).value| <= |lines|
    ensures (forall i :: 0 <= i < |lines| ==> |lines[i]| < 6) ==> ParsedGames(lines, toInt) == Some([])
  {
    if lines != [] {
      var init := lines[..|lines| - 1];
      RecordsComeFromLongLines(init, toInt);
      if ParsedGames(lines, toInt).Some? {
        var games := ParsedGames(init, toInt).value;
        forall g | g in ParsedGames(lines, toInt).value
          ensures exists i :: 0 <= i < |lines| && |lines[i]| >= 6 && Record(lines[i], toInt) == Some(g)
        {
          if g in games {
            var i :| 0 <= i < |init| && |init[i]| >= 6 && Record(init[i], toInt) == Some(g);
            assert lines[i] == init[i];
          } else {
            assert |lines[|lines| - 1]| >= 6 && Record(lines[|lines| - 1], toInt) == Some(g);
          }
        }
      }
      if forall i :: 0 <= i < |lines| ==> |lines[i]| < 6 {
        assert forall i :: 0 <= i < |init| ==> init[i] == lines[i];
      }
    }
  }

  // ---------------------------------------------------------------------------
  // The parameters of a game event

  /** A game event: its key/value pairs in the map's iteration order. */
  type GameEvent = seq<(string, string)>

  /** One "key=value" field. */
  function Field(kv: (string, string)): string
  {
    kv.0 + "=" + kv.1
  }

  /** The fields of an event, in order. */
  function Fields(data: GameEvent): seq<string>
  {
    if data == [] then [] else Fields(data[..|data| - 1]) + [Field(data[|data| - 1])]
  }

  /** The parameter string the loop has built after the fields of `data`:
      an '&' goes in front of a field only once something is there already. */
  function ParamsAfter(data: GameEvent): string
  {
    if data == [] then ""
    else
      var prev := ParamsAfter(data[..|data| - 1]);
      (if prev != "" then prev + "&" else prev) + Field(data[|data| - 1])
  }

  /** The reference reading: the parts separated by `sep`, read from the front. */
  function Joined(parts: seq<string>, sep: string): string
  {
    if parts == [] then ""
    else if |parts| == 1 then parts[0]
    else parts[0] + sep + Joined(parts[1..], sep)
  }

  lemma {:induction false} JoinedSnoc(parts: seq<string>, p: string, sep: string)
    requires parts != []
    ensures Joined(parts + [p], sep) == Joined(parts, sep) + sep + p
  {
    if |parts| == 1 {
      assert parts + [p] == [parts[0], p];
      assert [parts[0], p][1..] == [p];
    } else {
      assert (parts + [p])[0] == parts[0];
      assert (parts + [p])[1..] == parts[1..] + [p];
      JoinedSnoc(parts[1..], p, sep);
    }
  }

  /** The loop's string is the fields joined by "&": none before the first
      field, one between neighbours, none at the end; no fields give "". */
  lemma {:induction false} ParamsAreJoinedFields(data: GameEvent)
    ensures ParamsAfter(data) == Joined(Fields(data), "&")
    ensures ParamsAfter(data) == "" <==> data == []
  {
    if data != [] {
      var init := data[..|data| - 1];
      ParamsAreJoinedFields(init);
      var f := Field(data[|data| - 1]);
      assert f[|data[|data| - 1].0|] == '=';
      if init == [] {
        assert Fields(data) == [f];
      } else {
        JoinedSnoc(Fields(init), f, "&");
      }
    }
  }

  /** The request body of a game event (the loop inside the queued job). */
  method BuildParams(data: GameEvent) returns (params: string)
    ensures params == Joined(Fields(data), "&")
    ensures params == "" <==> data == []
  {
    params := "";
    var i := 0;
    while i < |data|
      invariant 0 <= i <= |data|
      invariant params == ParamsAfter(data[..i])
    {
      assert data[..i + 1][..i] == data[..i];
      if params != "" {
        params := params + "&";
      }
      params := params + data[i].0 + "=" + data[i].1;
      i := i + 1;
    }
    assert data[..|data|] == data;
    ParamsAreJoinedFields(data);
  }

  // ---------------------------------------------------------------------------
  // Bounded retry of game events

  /** How many tries a game event starts with. */
  const EventTries := 5

  /** What one attempt to post a game event came to. */
  datatype Attempt = NoHandle | Failed | Delivered

  /** The number of attempts made for one event queued with `tries` tries left,
      when the `k`-th attempt meets `network(k)`: a job is queued only while
      tries >= 0, and only a failed transfer queues the next one. */
  function Attempts(tries: int, network: nat -> Attempt, k: nat): (r: nat)
    ensures tries < 0 ==> r == 0
    ensures tries >= 0 ==> 1 <= r <= tries + 1
    decreases if tries < 0 then 0 else tries + 1
  {
    if tries < 0 then 0
    else if network(k) == Failed then 1 + Attempts(tries - 1, network, k + 1)
    else 1
  }

  /** When every attempt fails, every try is used. */
  lemma {:induction false} FailuresUseEveryTry(tries: int, network: nat -> Attempt, k: nat)
    requires forall i: nat :: k <= i <= k + tries ==> network(i) == Failed
    ensures Attempts(tries, network, k) == if tries < 0 then 0 else tries + 1
    decreases if tries < 0 then 0 else tries + 1
  {
    if tries >= 0 {
      assert network(k) == Failed;
      FailuresUseEveryTry(tries - 1, network, k + 1);
    }
  }

  /** Attempts stop at the first one that does not fail. */
  lemma {:induction false} RetryStopsAtFirstSuccess(tries: int, network: nat -> Attempt, k: nat, j: nat)
    requires 0 <= j <= tries
    requires forall i: nat :: k <= i < k + j ==> network(i) == Failed
    requires network(k + j) != Failed
    ensures Attempts(tries, network, k) == j + 1
    decreases j
  {
    if j > 0 {
      assert network(k) == Failed;
      RetryStopsAtFirstSuccess(tries - 1, network, k + 1, j - 1);
    }
  }

  /** A game event makes no attempt offline and at most EventTries + 1 online. */
  function EventAttempts(online: bool, network: nat -> Attempt): (r: nat)
    ensures r == 0 <==> !online
    ensures r <= EventTries + 1
  {
    if online then Attempts(EventTries, network, 0) else 0
  }

  /** A job waiting in the upload queue. */
  datatype Job = ScoresUpload(path: string) | EventUpload(data: GameEvent, tries: int)

  /** The outcome of an upload: none on success, otherwise the error text; a
      non-empty reply from the server counts as an error. */
  function CurlUpload(t: Transfer): (r: Option<string>)
    ensures r == None <==> t.initialised && t.error.None? && t.body == ""
    ensures !t.initialised ==> r == Some("Failed to initialize libcurl")
  {
    if !t.initialised then Some("Failed to initialize libcurl")
    else
      var ret := if t.error.Some? then "Upload failed: " + t.error.value else t.body;
      if ret != "" then Some(ret) else None
  }

  class FileSharing {
    const uploadUrl: string
    /** The jobs waiting for the upload worker, oldest first. */
    var uploadQueue: seq<Job>

    /** Every queued game event still has a try left, and no more than it
        started with. */
    ghost predicate Valid()
      reads this
    {
      forall j :: j in uploadQueue && j.EventUpload? ==> 0 <= j.tries <= EventTries
    }

    constructor (url: string)
      ensures uploadUrl == url && uploadQueue == [] && Valid()
    {
      uploadUrl := url;
      uploadQueue := [];
    }

    /** uploadRetired and uploadSite: offline both report success without a
        request; online they report what the upload to `page` reports, the
        retired-game uploads going to "/upload2.php" and the site uploads to
        "/upload_site.php". */
    function Upload(online: bool, network: string -> Transfer, page: string): (r: Option<string>)
      ensures r.Some? ==> online
      ensures online ==> r == CurlUpload(network(EscapeUrl(uploadUrl + page)))
    {
      if !online then None else CurlUpload(network(EscapeUrl(uploadUrl + page)))
    }

    /** uploadHighscores: queues the upload only when online. */
    method UploadHighscores(online: bool, path: string)
      requires Valid()
      modifies this`uploadQueue
      ensures Valid()
      ensures uploadQueue == old(uploadQueue) + (if online then [ScoresUpload(path)] else [])
    {
      if online {
        uploadQueue := uploadQueue + [ScoresUpload(path)];
      }
    }

    /** uploadGameEventImpl: queues the event while a try is left. */
    method UploadGameEventImpl(data: GameEvent, tries: int)
      requires Valid() && tries <= EventTries
      modifies this`uploadQueue
      ensures Valid()
      ensures uploadQueue == old(uploadQueue) + (if tries >= 0 then [EventUpload(data, tries)] else [])
    {
      if tries >= 0 {
        uploadQueue := uploadQueue + [EventUpload(data, tries)];
      }
    }

    /** uploadGameEvent: online, the event is queued with all its tries. */
    method UploadGameEvent(online: bool, data: GameEvent)
      requires Valid()
      modifies this`uploadQueue
      ensures Valid()
      ensures uploadQueue == old(uploadQueue) + (if online then [EventUpload(data, EventTries)] else [])
    {
      if online {
        UploadGameEventImpl(data, EventTries);
      }
    }

    /** The queued job of a game event, run once: it posts the joined
        parameters, and a failed transfer queues the event again with one try
        fewer. */
    method RunEventJob(data: GameEvent, tries: int, attempt: Attempt) returns (params: string)
      requires Valid() && 0 <= tries <= EventTries
      modifies this`uploadQueue
      ensures Valid()
      ensures params == Joined(Fields(data), "&")
      ensures uploadQueue == old(uploadQueue) +
                (if attempt == Failed && tries >= 1 then [EventUpload(data, tries - 1)] else [])
    {
      params := BuildParams(data);
      if attempt != NoHandle {
        if attempt == Failed {
          UploadGameEventImpl(data, tries - 1);
        }
      }
    }

    /** downloadHighscores: the body received, whole or partial; empty offline
        or without a handle. */
    function DownloadHighscores(online: bool, network: string -> Transfer): (r: string)
      ensures !online || !network(EscapeUrl(uploadUrl + "/highscores2.php")).initialised ==> r == ""
      ensures online && network(EscapeUrl(uploadUrl + "/highscores2.php")).initialised ==>
                r == network(EscapeUrl(uploadUrl + "/highscores2.php")).body
    {
      if online then
        var t := network(EscapeUrl(uploadUrl + "/highscores2.php"));
        if t.initialised then t.body else ""
      else ""
    }

    /** listGames: none offline, without a handle or after a failed transfer;
        otherwise the parsed game list, unless a number in it cannot be read,
        in which case the parsing exception leaves listGames (Fatal).
        `splitLines` cuts a body into lines of comma-separated fields. */
    method ListGames(online: bool, network: string -> Transfer, splitLines: string -> seq<seq<string>>,
                     toInt: string -> Option<int>)
      returns (r: Outcome<Option<seq<GameInfo>>>)
      ensures var t := network(EscapeUrl(uploadUrl + "/get_games2.php"));
              r == Ok(None) <==> !online || !t.initialised || t.error.Some?
      ensures var t := network(EscapeUrl(uploadUrl + "/get_games2.php"));
              r.Fatal? <==> online && t.initialised && t.error.None? && ParsedGames(splitLines(t.body), toInt).None?
      ensures r.Ok? && r.value.Some? ==>
                Some(r.value.value) == ParsedGames(splitLines(network(EscapeUrl(uploadUrl + "/get_games2.php")).body), toInt)
    {
      if !online {
        return Ok(None);
      }
      var t := network(EscapeUrl(uploadUrl + "/get_games2.php"));
      if !t.initialised || t.error.Some? {
        return Ok(None);
      }
      var games := ParseGames(splitLines(t.body), toInt);
      if games.None? {
        return Fatal("ParsingException");
      }
      return Ok(Some(games.value));
    }

    /** download: none once the file has arrived; otherwise the error text. */
    function Download(online: bool, filename: string, dir: string, fileOpens: bool,
                      network: string -> Transfer): (r: Option<string>)
      ensures !online ==> r == Some("Downloading not enabled!")
      ensures r == None <==> (online && fileOpens
                              && network(EscapeUrl(uploadUrl + "/uploads/" + filename)).initialised
                              && network(EscapeUrl(uploadUrl + "/uploads/" + filename)).error.None?)
    {
      if !online then Some("Downloading not enabled!")
      else
        var t := network(EscapeUrl(uploadUrl + "/uploads/" + filename));
        if !t.initialised then Some("Failed to initialize libcurl")
        else if !fileOpens then Some("Failed to open file: " + dir + "/" + filename)
        else if t.error.Some? then Some("Upload failed: " + t.error.value)
        else None
    }
  }
}
