/** The save-file helpers of the main loop: which save versions load, the file
    suffix of each kind of save, the path a game is saved under, and the menu
    of games offered for download. */
module MainLoop {
  import opened Wrappers
  import opened Sharing

  // ---------------------------------------------------------------------------
  // Versions

  /** The version written into every save. */
  const SaveVersion := 800

  /** C++ division of integers, which truncates toward zero. */
  function TruncDiv(a: int, b: int): int
    requires b > 0
  {
    if a >= 0 then a / b else -((-a) / b)
  }

  /** isCompatible: a save loads when its version lies in (2, SaveVersion] and
      has the same hundreds as SaveVersion. */
  predicate IsCompatible(loadedVersion: int)
  {
    loadedVersion > 2 && loadedVersion <= SaveVersion
    && TruncDiv(loadedVersion, 100) == TruncDiv(SaveVersion, 100)
  }

  /** Only saves of exactly the current version load; in particular the -1
      reported for an unreadable save does not. */
  lemma OnlyTheCurrentVersionIsCompatible(v: int)
    ensures IsCompatible(v) <==> v == SaveVersion
  {
    if IsCompatible(v) {
      assert v / 100 == 8;
      assert 800 <= v;
    }
  }

  // ---------------------------------------------------------------------------
  // Suffixes and paths

  /** The kinds of save file. */
  datatype GameSaveType = Keeper | Adventurer | RetiredSingle | RetiredSite | Autosave

  /** getSaveSuffix: a dot and three letters naming the kind of save. */
  function GetSaveSuffix(t: GameSaveType): (r: string)
    ensures |r| == 4 && r[0] == '.'
  {
    match t
    case Keeper => ".kep"
    case Adventurer => ".adv"
    case RetiredSingle => ".ret"
    case RetiredSite => ".sit"
    case Autosave => ".aut"
  }

  /** Each kind of save has a suffix of its own. */
  lemma SuffixesAreDistinct(a: GameSaveType, b: GameSaveType)
    ensures GetSaveSuffix(a) == GetSaveSuffix(b) <==> a == b
  {
  }

  /** isNonAscii: `char` is signed, so a character is non-ASCII exactly when
      its code is outside [0, 128). */
  predicate IsNonAscii(c: char)
  {
    !(0 <= c as int < 128)
  }

  /** What stripNonAscii leaves of `s`: its ASCII characters, in order. */
  function KeepAscii(s: string): (r: string)
    ensures |r| <= |s|
  {
    if s == [] then []
    else
      var last := s[|s| - 1];
      KeepAscii(s[..|s| - 1]) + (if IsNonAscii(last) then [] else [last])
  }

  /** What is kept is ASCII, and a string that is ASCII already is kept whole. */
  lemma {:induction false} KeepAsciiIsAscii(s: string)
    ensures forall c :: c in KeepAscii(s) ==> !IsNonAscii(c)
    ensures (forall c :: c in s ==> !IsNonAscii(c)) ==> KeepAscii(s) == s
  {
    if s != [] {
      var init := s[..|s| - 1];
      KeepAsciiIsAscii(init);
      assert s == init + [s[|s| - 1]];
    }
  }

  /** Stripping twice strips nothing more. */
  lemma KeepAsciiIsIdempotent(s: string)
    ensures KeepAscii(KeepAscii(s)) == KeepAscii(s)
  {
    KeepAsciiIsAscii(s);
    KeepAsciiIsAscii(KeepAscii(s));
  }

  /** A character survives exactly when it is ASCII and was there. */
  lemma {:induction false} KeepAsciiKeepsExactlyTheAscii(s: string)
    ensures forall c :: c in KeepAscii(s) <==> c in s && !IsNonAscii(c)
  {
    if s != [] {
      var init := s[..|s| - 1];
      KeepAsciiKeepsExactlyTheAscii(init);
      assert s == init + [s[|s| - 1]];
    }
  }

  /** Stripping works piece by piece, so the order of what is kept is the
      order it had. */
  lemma {:induction false} KeepAsciiDistributes(a: string, b: string)
    ensures KeepAscii(a + b) == KeepAscii(a) + KeepAscii(b)
  {
    if b == [] {
      assert a + b == a;
    } else {
      var b' := b[..|b| - 1];
      assert (a + b)[..|a + b| - 1] == a + b';
      assert (a + b)[|a + b| - 1] == b[|b| - 1];
      KeepAsciiDistributes(a, b');
    }
  }

  lemma KeepAsciiStep(s: string, i: nat)
    requires i < |s|
    ensures KeepAscii(s[..i + 1]) == KeepAscii(s[..i]) + (if IsNonAscii(s[i]) then [] else [s[i]])
  {
    assert s[..i + 1][..i] == s[..i];
  }

  /** stripNonAscii: erase-remove over a copy of the string; the ASCII
      characters are moved to the front in order and the rest is cut off. */
  method StripNonAscii(s: string) returns (r: string)
    ensures r == KeepAscii(s)
  {
    var a := new char[|s|](k requires 0 <= k < |s| => s[k]);
    var w := 0;
    ghost var kept := [];
    var i := 0;
    while i < a.Length
      invariant 0 <= w <= i <= a.Length == |s|
      invariant kept == KeepAscii(s[..i]) && w == |kept|
      invariant forall k :: 0 <= k < w ==> a[k] == kept[k]
      invariant forall k :: i <= k < a.Length ==> a[k] == s[k]
    {
      KeepAsciiStep(s, i);
      if !IsNonAscii(a[i]) {
        a[w] := a[i];
        w := w + 1;
        kept := kept + [s[i]];
      }
      i := i + 1;
    }
    assert s[..i] == s;
    r := a[..w];
  }

  /** getSavePath: the user directory, a slash, the game's identifier with its
      non-ASCII characters removed, and the suffix of the kind of save. */
  function GetSavePath(userPath: string, identifier: string, t: GameSaveType): (r: string)
    ensures |r| == |userPath| + 1 + |KeepAscii(identifier)| + 4
  {
    userPath + "/" + KeepAscii(identifier) + GetSaveSuffix(t)
  }

  /** Two kinds of save never share a path, and an identifier that is
      already stripped gives the same path. */
  lemma SavePathsAreDistinct(userPath: string, identifier: string, a: GameSaveType, b: GameSaveType)
    ensures GetSavePath(userPath, identifier, a) == GetSavePath(userPath, identifier, b) <==> a == b
    ensures GetSavePath(userPath, KeepAscii(identifier), a) == GetSavePath(userPath, identifier, a)
  {
    var p := userPath + "/" + KeepAscii(identifier);
    var pa := GetSavePath(userPath, identifier, a);
    var pb := GetSavePath(userPath, identifier, b);
    assert pa[|p|..] == GetSaveSuffix(a);
    assert pb[|p|..] == GetSaveSuffix(b);
    SuffixesAreDistinct(a, b);
    KeepAsciiIsIdempotent(identifier);
  }

  // ---------------------------------------------------------------------------
  // The download menu

  /** A line of a menu: a title, or an entry with its secondary text. */
  datatype ListElem = Title(text: string) | Entry(text: string, secondary: string)

  /** A save file on disk or on the site. */
  datatype SaveFileInfo = SaveFileInfo(filename: string, date: int, download: bool)

  /** getGameDesc: how many players tried the game and how many it killed;
      nothing for a game no one has played. `plural` and `decimal` are the
      utilities getPlural and toString. */
  function GetGameDesc(game: GameInfo, plural: (string, int) -> string, decimal: int -> string): string
  {
    if game.totalGames > 0 then
      plural("daredevil", game.totalGames) + " " + decimal(game.totalGames - game.wonGames) + " killed"
    else ""
  }

  /** A game has a description exactly when someone has played it, and the
      description then ends with the number killed. */
  lemma GameDescIsEmptyExactlyWhenUnplayed(game: GameInfo, plural: (string, int) -> string, decimal: int -> string)
    ensures GetGameDesc(game, plural, decimal) == "" <==> game.totalGames <= 0
    ensures game.totalGames > 0 ==>
              var r := GetGameDesc(game, plural, decimal);
              |r| >= 7 && r[|r| - 7..] == " killed"
  {
    if game.totalGames > 0 {
      var r := GetGameDesc(game, plural, decimal);
      var front := plural("daredevil", game.totalGames) + " " + decimal(game.totalGames - game.wonGames);
      assert r == front + " killed";
      assert r[|r| - 7..] == " killed";
    }
  }

  /** Whether some file in `files` has the name. */
  predicate HasFile(files: seq<SaveFileInfo>, name: string)
  {
    exists f :: f in files && f.filename == name
  }

  /** The file entry a downloadable game adds. */
  function FileEntry(g: GameInfo): SaveFileInfo
  {
    SaveFileInfo(g.filename, g.time, true)
  }

  function FileEntries(gs: seq<GameInfo>): seq<SaveFileInfo>
  {
    if gs == [] then [] else FileEntries(gs[..|gs| - 1]) + [FileEntry(gs[|gs| - 1])]
  }

  /** The menu entry of a downloadable game: its name and description. */
  function MenuEntry(g: GameInfo, plural: (string, int) -> string, decimal: int -> string): ListElem
  {
    Entry(g.displayName, GetGameDesc(g, plural, decimal))
  }

  function MenuEntries(gs: seq<GameInfo>, plural: (string, int) -> string, decimal: int -> string): seq<ListElem>
  {
    if gs == [] then [] else MenuEntries(gs[..|gs| - 1], plural, decimal) + [MenuEntry(gs[|gs| - 1], plural, decimal)]
  }

  /** The games getDownloadOptions offers, in order, when `known` lists the
      files already offered: a compatible game whose file is not listed yet. */
  function Downloads(games: seq<GameInfo>, known: seq<SaveFileInfo>): seq<GameInfo>
  {
    if games == [] then []
    else
      var prev := Downloads(games[..|games| - 1], known);
      var g := games[|games| - 1];
      if IsCompatible(g.version) && !HasFile(known + FileEntries(prev), g.filename) then prev + [g] else prev
  }

  /** How the lists of getDownloadOptions grow by one game, `found` telling
      whether its file is listed already. */
  lemma DownloadsStep(games: seq<GameInfo>, i: nat, known: seq<SaveFileInfo>, head: seq<ListElem>,
                      plural: (string, int) -> string, decimal: int -> string, found: bool)
    requires i < |games|
    requires found == HasFile(known + FileEntries(Downloads(games[..i], known)), games[i].filename)
    ensures var prev := Downloads(games[..i], known);
            var now := Downloads(games[..i + 1], known);
            if IsCompatible(games[i].version) && !found then
              && known + FileEntries(now) == known + FileEntries(prev) + [FileEntry(games[i])]
              && head + MenuEntries(now, plural, decimal) == head + MenuEntries(prev, plural, decimal) + [MenuEntry(games[i], plural, decimal)]
            else now == prev
  {
    assert games[..i + 1][..i] == games[..i];
    var prev := Downloads(games[..i], known);
    if IsCompatible(games[i].version) && !found {
      var now := prev + [games[i]];
      assert now[..|prev|] == prev;
    }
  }

  /** The search of getDownloadOptions for a file already listed. */
  method FindFile(files: seq<SaveFileInfo>, name: string) returns (dup: bool)
    ensures dup == HasFile(files, name)
  {
    dup := false;
    var j := 0;
    while j < |files|
      invariant 0 <= j <= |files|
      invariant forall k :: 0 <= k < j ==> files[k].filename != name
    {
      if files[j].filename == name {
        dup := true;
        break;
      }
      j := j + 1;
    }
  }

  /** getDownloadOptions: appends a title, then one entry and one file marked
      for download for each game Downloads offers. */
  method GetDownloadOptions(games: seq<GameInfo>, options0: seq<ListElem>, allFiles0: seq<SaveFileInfo>,
                            title: string, plural: (string, int) -> string, decimal: int -> string)
    returns (options: seq<ListElem>, allFiles: seq<SaveFileInfo>)
    ensures options == options0 + [Title(title)] + MenuEntries(Downloads(games, allFiles0), plural, decimal)
    ensures allFiles == allFiles0 + FileEntries(Downloads(games, allFiles0))
  {
    var head := options0 + [Title(title)];
    options := head;
    allFiles := allFiles0;
    var i := 0;
    while i < |games|
      invariant 0 <= i <= |games|
      invariant options == head + MenuEntries(Downloads(games[..i], allFiles0), plural, decimal)
      invariant allFiles == allFiles0 + FileEntries(Downloads(games[..i], allFiles0))
    {
      var info := games[i];
      if IsCompatible(info.version) {
        var dup := FindFile(allFiles, info.filename);
        DownloadsStep(games, i, allFiles0, head, plural, decimal, dup);
        if !dup {
          options := options + [MenuEntry(info, plural, decimal)];
          allFiles := allFiles + [FileEntry(info)];
        }
      } else {
        DownloadsStep(games, i, allFiles0, head, plural, decimal, HasFile(allFiles, info.filename));
      }
      i := i + 1;
    }
    assert games[..|games|] == games;
  }

  lemma {:induction false} InFileEntries(gs: seq<GameInfo>, f: SaveFileInfo)
    ensures f in FileEntries(gs) <==> exists g :: g in gs && f == FileEntry(g)
  {
    if gs != [] {
      InFileEntries(gs[..|gs| - 1], f);
      assert gs == gs[..|gs| - 1] + [gs[|gs| - 1]];
    }
  }

  /** Every game offered is compatible and comes from the list, and its file
      is listed neither before nor by another offered game: the files added
      have distinct names. */
  lemma {:induction false} DownloadsAreNewAndDistinct(games: seq<GameInfo>, known: seq<SaveFileInfo>)
    ensures forall g :: g in Downloads(games, known) ==> g in games && IsCompatible(g.version)
    ensures forall g :: g in Downloads(games, known) ==> !HasFile(known, g.filename)
    ensures forall i, j :: 0 <= i < j < |Downloads(games, known)| ==>
              Downloads(games, known)[i].filename != Downloads(games, known)[j].filename
  {
    if games != [] {
      var init := games[..|games| - 1];
      var prev := Downloads(init, known);
      var g := games[|games| - 1];
      DownloadsAreNewAndDistinct(init, known);
      if IsCompatible(g.version) && !HasFile(known + FileEntries(prev), g.filename) {
        var d := prev + [g];
        assert !HasFile(known, g.filename) by {
          forall f | f in known ensures f.filename != g.filename {
            assert f in known + FileEntries(prev);
          }
        }
        forall i | 0 <= i < |prev|
          ensures prev[i].filename != g.filename
        {
          InFileEntries(prev, FileEntry(prev[i]));
          assert FileEntry(prev[i]) in known + FileEntries(prev);
        }
      }
    }
  }

  /** Every compatible game ends up offered, either as a file already listed
      or as a new download. */
  lemma {:induction false} CompatibleGamesAreOffered(games: seq<GameInfo>, known: seq<SaveFileInfo>)
    ensures forall g :: g in games && IsCompatible(g.version) ==>
              HasFile(known + FileEntries(Downloads(games, known)), g.filename)
  {
    if games != [] {
      var init := games[..|games| - 1];
      var prev := Downloads(init, known);
      var last := games[|games| - 1];
      CompatibleGamesAreOffered(init, known);
      var now := Downloads(games, known);
      assert FileEntries(prev) <= FileEntries(now) by {
        if now != prev {
          assert now == prev + [last];
          assert now[..|now| - 1] == prev;
        }
      }
      forall g | g in games && IsCompatible(g.version)
        ensures HasFile(known + FileEntries(now), g.filename)
      {
        if g in init {
          var f :| f in known + FileEntries(prev) && f.filename == g.filename;
          assert f in known + FileEntries(now);
        } else {
          assert g == last;
          if now != prev {
            assert now == prev + [last];
            assert now[..|now| - 1] == prev;
            assert FileEntry(last) in known + FileEntries(now);
          } else {
            assert HasFile(known + FileEntries(prev), g.filename);
          }
        }
      }
    }
  }

  /** chooseSaveFile: nothing to choose from an empty menu; otherwise the
      file at the index the view returns, if any. */
  function ChooseSaveFile(options: seq<ListElem>, allFiles: seq<SaveFileInfo>, chosen: Option<int>): (r: Option<SaveFileInfo>)
    requires options != [] && chosen.Some? ==> 0 <= chosen.value < |allFiles|
    ensures options == [] ==> r == None
    ensures r.Some? ==> r.value in allFiles
    ensures options != [] ==> (r.Some? <==> chosen.Some?)
  {
    if options == [] then None
    else if chosen.Some? then Some(allFiles[chosen.value])
    else None
  }
}
