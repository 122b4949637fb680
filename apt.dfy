/** Authenticated apt repositories: the credential probe, the repository
    list file, the `auth.conf` credential lines and the pin file.
    `platform.dist()` is replaced by a `series` parameter; a keyring file
    or fingerprint given as `None` is the empty string. */
module Apt {
  import opened Errors
  import opened Strings
  import opened Files

  const AptAuthFile := "/etc/apt/auth.conf"
  const AptKeysDir := "/etc/apt/trusted.gpg.d"
  const AptHelper := "/usr/lib/apt/apt-helper"
  const AptTestFile := "/tmp/uaclient-apt-test"
  const AuthMode: int := 0x180 // 0o600

  /** Unpacking a split into two names, with Python's ValueError text. */
  function UnpackPair(parts: seq<string>): (r: Result<(string, string)>)
    ensures r.Ok? <==> |parts| == 2
    ensures r.Ok? ==> r.value == (parts[0], parts[1])
    ensures r.Err? ==> r.error.ValueError?
  {
    if |parts| < 2 then Err(ValueError("not enough values to unpack (expected 2, got " + IntToString(|parts|) + ")"))
    else if |parts| > 2 then Err(ValueError("too many values to unpack (expected 2)"))
    else Ok((parts[0], parts[1]))
  }

  /** `protocol, repo_path = repo_url.split('://')`. */
  function RepoUrlParts(repoUrl: string): Result<(string, string)>
  {
    UnpackPair(Split(repoUrl, "://"))
  }

  function ReleaseUrl(protocol: string, credentials: string, path: string, series: string): string
  {
    protocol + "://" + credentials + "@" + path + "/ubuntu/dists/" + series + "/Release"
  }

  // ---------------------------------------------------------------------
  // valid_apt_credentials

  /** The credential probe: the URL must split into protocol and path;
      without `apt-helper` the credentials are taken as valid; otherwise
      the download of the Release file decides (`downloadOk`), and the
      probe file is gone afterwards either way. */
  function ValidCredentials(d: Snapshot, repoUrl: string, series: string, credentials: string, downloadOk: bool)
    : (r: (Result<bool>, Snapshot))
    ensures r.0.Err? <==> RepoUrlParts(repoUrl).Err?
  {
    match RepoUrlParts(repoUrl)
    case Err(e) => (Err(e), d)
    case Ok((protocol, path)) =>
      if AptHelper !in d.files then (Ok(true), d)
      else
        var download := DownloadFile(ReleaseUrl(protocol, credentials, path, series), AptTestFile);
        (Ok(downloadOk), Snapshot(d.files - {AptTestFile}, d.commands + [download]))
  }

  method ValidAptCredentials(fs: FileSystem, repoUrl: string, series: string, credentials: string, downloadOk: bool)
    returns (r: Result<bool>)
    modifies fs
    ensures (r, fs.State()) == ValidCredentials(old(fs.State()), repoUrl, series, credentials, downloadOk)
  {
    var parts := RepoUrlParts(repoUrl);
    if parts.Err? {
      return Err(parts.error);
    }
    var (protocol, path) := parts.value;
    if !fs.Exists(AptHelper) {
      return Ok(true);
    }
    fs.Run(DownloadFile(ReleaseUrl(protocol, credentials, path, series), AptTestFile));
    if downloadOk {
      fs.Delete(AptTestFile);
      return Ok(true);
    }
    if fs.Exists(AptTestFile) {
      fs.Delete(AptTestFile);
    }
    assert fs.files == old(fs.files) - {AptTestFile};
    return Ok(false);
  }

  /** The probe's outcomes: a malformed URL raises before anything else,
      a missing `apt-helper` validates without a trace, and otherwise only
      the probe file and the download command change. */
  lemma ValidCredentialsMeaning(d: Snapshot, repoUrl: string, series: string, credentials: string, downloadOk: bool)
    ensures var r := ValidCredentials(d, repoUrl, series, credentials, downloadOk);
      && (r.0.Err? <==> |Split(repoUrl, "://")| != 2)
      && (r.0.Err? ==> r.0.error.ValueError? && r.1 == d)
      && (r.0.Ok? && AptHelper !in d.files ==> r.0.value && r.1 == d)
      && (r.0.Ok? && AptHelper in d.files ==>
            r.0.value == downloadOk && r.1.files == d.files - {AptTestFile}
            && |r.1.commands| == |d.commands| + 1 && r.1.commands[..|d.commands|] == d.commands)
  {
    var r := ValidCredentials(d, repoUrl, series, credentials, downloadOk);
    if r.0.Ok? && AptHelper in d.files {
      assert r.1.commands[..|d.commands|] == d.commands;
    }
  }

  // ---------------------------------------------------------------------
  // The texts written

  function DebLine(url: string, series: string): string
  {
    "deb " + url + "/ubuntu " + series + " main"
  }

  function DebSrcLine(url: string, series: string): string
  {
    "# deb-src " + url + "/ubuntu " + series + " main"
  }

  /** The repository list file. */
  function RepoListContent(url: string, series: string): string
  {
    DebLine(url, series) + "\n" + (DebSrcLine(url, series) + "\n")
  }

  /** What marks a repository's line in `auth.conf`. */
  function AuthPrefix(path: string): string
  {
    "machine " + path + "/ubuntu/ login"
  }

  function AuthLineText(path: string, login: string, password: string): string
  {
    AuthPrefix(path) + " " + login + " password " + password
  }

  /** The line appended to `auth.conf`. */
  function AuthLine(path: string, login: string, password: string): string
  {
    AuthLineText(path, login, password) + "\n"
  }

  function PinPackageLine(): string { "Package: *" }

  function PinReleaseLine(origin: string, series: string): string
  {
    "Pin: release o=" + origin + ", n=" + series
  }

  /** The priority line keeps the `$` the format string writes before the
      value. */
  function PinPriorityLine(priority: int): string
  {
    "Pin-Priority: $" + IntToString(priority)
  }

  function PinContent(origin: string, series: string, priority: int): string
  {
    PinPackageLine() + "\n" + (PinReleaseLine(origin, series) + "\n" + (PinPriorityLine(priority) + "\n"))
  }

  /** `s + "\n"` splits into the lines of `s` followed by an empty line. */
  lemma SplitFinalNewline(s: string)
    requires Lacks(s, '\n')
    ensures Split(s + "\n", "\n") == [s, ""]
  {
    ContainsChar(s, '\n');
    assert s + "\n" == s + "\n" + "";
    SplitConcat(s, "\n", "");
  }

  /** Two newline-ended lines split into the two lines and an empty one. */
  lemma SplitTwoLines(a: string, b: string)
    requires Lacks(a, '\n') && Lacks(b, '\n')
    ensures Split(a + "\n" + (b + "\n"), "\n") == [a, b, ""]
  {
    ContainsChar(a, '\n');
    SplitConcat(a, "\n", b + "\n");
    SplitFinalNewline(b);
  }

  /** The repository list file holds exactly the `deb` line and the
      commented `deb-src` line, each ended by a newline. */
  lemma RepoListLines(url: string, series: string)
    requires Lacks(url, '\n') && Lacks(series, '\n')
    ensures Split(RepoListContent(url, series), "\n")
      == ["deb " + url + "/ubuntu " + series + " main", "# deb-src " + url + "/ubuntu " + series + " main", ""]
  {
    var tail := "/ubuntu " + series + " main";
    assert Lacks(tail, '\n');
    assert DebLine(url, series) == "deb " + url + tail;
    assert DebSrcLine(url, series) == "# deb-src " + url + tail;
    SplitTwoLines(DebLine(url, series), DebSrcLine(url, series));
  }

  lemma IntToStringLacksNewline(i: int)
    ensures Lacks(IntToString(i), '\n')
  {
    var n := if i < 0 then -i else i;
    assert AllDigits(NatToString(n));
  }

  lemma PinLinesLack(origin: string, series: string, priority: int)
    requires Lacks(origin, '\n') && Lacks(series, '\n')
    ensures Lacks(PinPackageLine(), '\n')
    ensures Lacks(PinReleaseLine(origin, series), '\n')
    ensures Lacks(PinPriorityLine(priority), '\n')
  {
    IntToStringLacksNewline(priority);
    assert Lacks(", n=" + series, '\n');
  }

  /** The pin file holds exactly the package, release and priority lines. */
  lemma PinLines(origin: string, series: string, priority: int)
    requires Lacks(origin, '\n') && Lacks(series, '\n')
    ensures Split(PinContent(origin, series, priority), "\n")
      == ["Package: *", "Pin: release o=" + origin + ", n=" + series, "Pin-Priority: $" + IntToString(priority), ""]
  {
    var a := PinPackageLine();
    var b := PinReleaseLine(origin, series);
    var c := PinPriorityLine(priority);
    PinLinesLack(origin, series, priority);
    ContainsChar(a, '\n');
    SplitConcat(a, "\n", b + "\n" + (c + "\n"));
    SplitTwoLines(b, c);
  }

  // ---------------------------------------------------------------------
  // Removing credential lines

  /** The list comprehension keeping the lines that do not contain
      `prefix`. */
  function KeepLines(lines: seq<string>, prefix: string): (r: seq<string>)
    ensures forall l :: l in r ==> l in lines && !Contains(l, prefix)
    ensures forall l :: l in lines && !Contains(l, prefix) ==> l in r
  {
    if |lines| == 0 then []
    else
      var rest := KeepLines(lines[1..], prefix);
      assert forall l :: l in lines ==> l == lines[0] || l in lines[1..];
      if Contains(lines[0], prefix) then rest else [lines[0]] + rest
  }

  /** Filtering keeps the order: it distributes over concatenation. */
  lemma {:induction false} KeepLinesConcat(a: seq<string>, b: seq<string>, prefix: string)
    ensures KeepLines(a + b, prefix) == KeepLines(a, prefix) + KeepLines(b, prefix)
  {
    if |a| > 0 {
      assert (a + b)[1..] == a[1..] + b;
      KeepLinesConcat(a[1..], b, prefix);
    } else {
      assert a + b == b;
    }
  }

  /** The new `auth.conf` text once a repository's lines are dropped. */
  function RemoveAuthLines(content: string, path: string): string
  {
    Join(KeepLines(Split(content, "\n"), AuthPrefix(path)), "\n")
  }

  /** What stays is exactly the lines without the repository's prefix, in
      their order; when nothing stays the text is empty. */
  lemma RemoveAuthLinesMeaning(content: string, path: string)
    ensures var kept := KeepLines(Split(content, "\n"), AuthPrefix(path));
      && (|kept| == 0 ==> RemoveAuthLines(content, path) == "")
      && (|kept| > 0 ==> Split(RemoveAuthLines(content, path), "\n") == kept)
  {
    var kept := KeepLines(Split(content, "\n"), AuthPrefix(path));
    if |kept| > 0 {
      SplitPiecesFree(content, "\n");
      forall l | l in kept
        ensures Lacks(l, '\n')
      {
        ContainsChar(l, '\n');
      }
      SplitJoin(kept, '\n');
    }
  }

  lemma LacksConcat(a: string, b: string, c: char)
    requires Lacks(a, c) && Lacks(b, c)
    ensures Lacks(a + b, c)
  {
  }

  /** The appended line begins with the prefix removal looks for. */
  lemma AuthLineMarked(path: string, login: string, password: string)
    ensures Contains(AuthLineText(path, login, password), AuthPrefix(path))
  {
    var t := AuthLineText(path, login, password);
    var p := AuthPrefix(path);
    assert t[..|p|] == p;
    assert OccursAt(t, p, 0);
  }

  /** After a text ending with a newline, the split ends with an empty
      piece; appending a line and a newline puts the line before it. */
  lemma SplitAfterNewline(c0: string, line: string)
    requires Lacks(line, '\n')
    ensures Split(c0 + "\n", "\n") == Split(c0, "\n") + [""]
    ensures Split(c0 + "\n" + (line + "\n"), "\n") == Split(c0, "\n") + [line, ""]
  {
    SplitFinalNewline(line);
    assert Split("", "\n") == [""];
    assert c0 + "\n" == c0 + "\n" + "";
    SplitConcat(c0, "\n", "");
    SplitConcat(c0, "\n", line + "\n");
  }

  /** Filtering a credential line and the empty piece after it leaves the
      empty piece. */
  lemma KeepLastPieces(line: string, prefix: string)
    requires Contains(line, prefix) && |prefix| > 0
    ensures KeepLines([""], prefix) == [""]
    ensures KeepLines([line, ""], prefix) == [""]
  {
    assert !Contains("", prefix);
    assert [""][1..] == [];
    assert [line, ""][1..] == [""];
  }

  /** Removing a repository's lines after appending its credential line
      gives what removing gave before, provided the earlier text ended
      with a newline (or was empty) and no field holds a newline. */
  lemma RemoveAfterAppend(content: string, path: string, login: string, password: string)
    requires content == "" || content[|content| - 1] == '\n'
    requires Lacks(path, '\n') && Lacks(login, '\n') && Lacks(password, '\n')
    ensures RemoveAuthLines(content + AuthLine(path, login, password), path) == RemoveAuthLines(content, path)
  {
    var line := AuthLineText(path, login, password);
    var prefix := AuthPrefix(path);
    assert Lacks(line, '\n');
    AuthLineMarked(path, login, password);
    KeepLastPieces(line, prefix);
    if content == "" {
      SplitFinalNewline(line);
      assert content + AuthLine(path, login, password) == line + "\n";
      assert Split("", "\n") == [""];
    } else {
      var c0 := content[..|content| - 1];
      assert content == c0 + "\n";
      assert content + AuthLine(path, login, password) == c0 + "\n" + (line + "\n");
      SplitAfterNewline(c0, line);
      KeepLinesConcat(Split(c0, "\n"), [""], prefix);
      KeepLinesConcat(Split(c0, "\n"), [line, ""], prefix);
    }
  }

  // ---------------------------------------------------------------------
  // add_auth_apt_repo

  /** The key action: a keyring file wins over a fingerprint; the
      keyring is copied into the keys directory, which may fail. */
  function AddKey(d: Snapshot, keyring: string, fingerprint: string): (Outcome, Snapshot)
  {
    if keyring != "" then
      match CopyInto(d.files, keyring, AptKeysDir)
      case Err(e) => (Fail(e), d)
      case Ok(files) => (Pass, d.(files := files))
    else if fingerprint != "" then (Pass, d.(commands := d.commands + [AptKeyReceive(fingerprint)]))
    else (Pass, d)
  }

  /** Nothing in the keys directory is `auth.conf` or the probe file. */
  lemma KeysDirElsewhere(name: string)
    ensures AptKeysDir + "/" + name != AptAuthFile
    ensures AptKeysDir + "/" + name != AptTestFile
  {
    var dir := AptKeysDir + "/";
    assert (dir + name)[9] == dir[9] == 't' != AptAuthFile[9];
    assert (dir + name)[1] == dir[1] == 'e' != AptTestFile[1];
  }

  function AuthContent(files: map<string, File>): string
  {
    if AptAuthFile in files then files[AptAuthFile].content else ""
  }

  /** `add_auth_apt_repo`, step by step: probe the credentials, write the
      list file, split the credentials, append to `auth.conf`, then act
      on the key. */
  function AddAuthRepo(d: Snapshot, repoFilename: string, repoUrl: string, credentials: string, series: string,
                       keyring: string, fingerprint: string, downloadOk: bool): (Outcome, Snapshot)
  {
    var (valid, d1) := ValidCredentials(d, repoUrl, series, credentials, downloadOk);
    if valid.Err? then (Fail(valid.error), d1)
    else if !valid.value then (Fail(InvalidAPTCredentialsError(InvalidAptCredentials(repoUrl))), d1)
    else
      var d2 := d1.(files := d1.files[repoFilename := File(RepoListContent(repoUrl, series), DefaultMode)]);
      match UnpackPair(Split(credentials, ":"))
      case Err(e) => (Fail(e), d2)
      case Ok((login, password)) =>
        var path := RepoUrlParts(repoUrl).value.1;
        var auth := AuthContent(d2.files) + AuthLine(path, login, password);
        AddKey(d2.(files := d2.files[AptAuthFile := File(auth, AuthMode)]), keyring, fingerprint)
  }

  method AddAuthAptRepo(fs: FileSystem, repoFilename: string, repoUrl: string, credentials: string, series: string,
                        keyring: string, fingerprint: string, downloadOk: bool) returns (r: Outcome)
    modifies fs
    ensures (r, fs.State()) == AddAuthRepo(old(fs.State()), repoFilename, repoUrl, credentials, series, keyring, fingerprint, downloadOk)
  {
    var valid := ValidAptCredentials(fs, repoUrl, series, credentials, downloadOk);
    if valid.Err? {
      return Fail(valid.error);
    }
    if !valid.value {
      return Fail(InvalidAPTCredentialsError(InvalidAptCredentials(repoUrl)));
    }
    fs.Write(repoFilename, RepoListContent(repoUrl, series), DefaultMode);
    var creds := UnpackPair(Split(credentials, ":"));
    if creds.Err? {
      return Fail(creds.error);
    }
    var (login, password) := creds.value;
    var auth := "";
    if fs.Exists(AptAuthFile) {
      auth := fs.Load(AptAuthFile).value;
    }
    assert auth == AuthContent(fs.files);
    var (_, path) := RepoUrlParts(repoUrl).value;
    fs.Write(AptAuthFile, auth + AuthLine(path, login, password), AuthMode);
    if keyring != "" {
      r := fs.Copy(keyring, AptKeysDir);
    } else if fingerprint != "" {
      fs.Run(AptKeyReceive(fingerprint));
      r := Pass;
    } else {
      r := Pass;
    }
  }

  /** Credentials the probe rejects raise before any file is written:
      only the probe file is gone. */
  lemma RejectedCredentialsWriteNothing(d: Snapshot, repoFilename: string, repoUrl: string, credentials: string,
                                        series: string, keyring: string, fingerprint: string)
    requires RepoUrlParts(repoUrl).Ok? && AptHelper in d.files
    ensures var r := AddAuthRepo(d, repoFilename, repoUrl, credentials, series, keyring, fingerprint, false);
      && r.0 == Fail(InvalidAPTCredentialsError(InvalidAptCredentials(repoUrl)))
      && r.1.files == d.files - {AptTestFile}
      && (repoFilename != AptTestFile ==> (repoFilename in r.1.files <==> repoFilename in d.files))
  {
  }

  /** Credentials that do not split into login and password raise only
      after the list file is written. */
  lemma MalformedCredentialsAfterListWrite(d: Snapshot, repoFilename: string, repoUrl: string, credentials: string,
                                           series: string, keyring: string, fingerprint: string, downloadOk: bool)
    requires RepoUrlParts(repoUrl).Ok? && (AptHelper !in d.files || downloadOk)
    requires |Split(credentials, ":")| != 2
    ensures var r := AddAuthRepo(d, repoFilename, repoUrl, credentials, series, keyring, fingerprint, downloadOk);
      && r.0.Fail? && r.0.error.ValueError?
      && r.1.files[repoFilename] == File(RepoListContent(repoUrl, series), DefaultMode)
      && AuthContent(r.1.files) == (if repoFilename == AptAuthFile then RepoListContent(repoUrl, series) else AuthContent(d.files))
  {
  }

  /** The files as they stand once the list file and `auth.conf` are
      written, before the key action. */
  function AuthWritten(d: Snapshot, repoFilename: string, repoUrl: string, credentials: string,
                       series: string, downloadOk: bool): map<string, File>
    requires RepoUrlParts(repoUrl).Ok? && |Split(credentials, ":")| == 2
  {
    var path := RepoUrlParts(repoUrl).value.1;
    var creds := Split(credentials, ":");
    var base := ValidCredentials(d, repoUrl, series, credentials, downloadOk).1;
    base.files[repoFilename := File(RepoListContent(repoUrl, series), DefaultMode)]
              [AptAuthFile := File(AuthContent(d.files) + AuthLine(path, creds[0], creds[1]), AuthMode)]
  }

  /** Once the probe accepts the credentials, the list file is written
      and exactly one line is appended to the earlier `auth.conf` text
      (empty when missing) with mode 0600, every other file staying as it
      was; then the key action runs. A keyring that does not exist raises
      FileNotFoundError and one already in the keys directory raises
      SameFileError, both after `auth.conf` is written; otherwise the
      keyring is copied, content and mode, into the keys directory. A
      fingerprint is imported with `apt-key`. */
  lemma AddAuthRepoSucceeds(d: Snapshot, repoFilename: string, repoUrl: string, credentials: string,
                            series: string, keyring: string, fingerprint: string, downloadOk: bool)
    requires RepoUrlParts(repoUrl).Ok? && (AptHelper !in d.files || downloadOk)
    requires |Split(credentials, ":")| == 2
    requires repoFilename != AptAuthFile
    ensures var path := RepoUrlParts(repoUrl).value.1;
      var creds := Split(credentials, ":");
      var written := AuthWritten(d, repoFilename, repoUrl, credentials, series, downloadOk);
      && written[repoFilename] == File(RepoListContent(repoUrl, series), DefaultMode)
      && written[AptAuthFile] == File(AuthContent(d.files) + AuthLine(path, creds[0], creds[1]), AuthMode)
      && forall p :: p != repoFilename && p != AptAuthFile && p != AptTestFile ==>
           (p in written <==> p in d.files) && (p in d.files ==> written[p] == d.files[p])
    ensures var r := AddAuthRepo(d, repoFilename, repoUrl, credentials, series, keyring, fingerprint, downloadOk);
      var written := AuthWritten(d, repoFilename, repoUrl, credentials, series, downloadOk);
      var base := ValidCredentials(d, repoUrl, series, credentials, downloadOk).1;
      var target := CopyTarget(keyring, AptKeysDir);
      && (keyring == "" ==> r.0 == Pass && r.1.files == written)
      && (keyring != "" && keyring !in written ==> r.0 == Fail(FileNotFoundError(keyring)) && r.1.files == written)
      && (keyring != "" && keyring in written && keyring == target ==>
            r.0 == Fail(SameFileError(keyring)) && r.1.files == written)
      && (keyring != "" && keyring in written && keyring != target ==>
            r.0 == Pass && r.1.files == written[target := written[keyring]])
      && (keyring != "" ==> r.1.commands == base.commands)
      && (keyring == "" && fingerprint != "" ==> r.1.commands == base.commands + [AptKeyReceive(fingerprint)])
      && (keyring == "" && fingerprint == "" ==> r.1.commands == base.commands)
  {
    var base := ValidCredentials(d, repoUrl, series, credentials, downloadOk).1;
    assert AuthContent(base.files[repoFilename := File(RepoListContent(repoUrl, series), DefaultMode)]) == AuthContent(d.files);
  }

  // ---------------------------------------------------------------------
  // remove_auth_apt_repo

  /** The key action on removal: delete the keyring file, or else the key. */
  function RemoveKey(d: Snapshot, keyring: string, fingerprint: string): Snapshot
  {
    if keyring != "" then d.(files := d.files - {keyring})
    else if fingerprint != "" then d.(commands := d.commands + [AptKeyDelete(fingerprint)])
    else d
  }

  /** `remove_auth_apt_repo`: drop the list file and the key, then the
      repository's lines of `auth.conf`, deleting it when nothing is left. */
  function RemoveAuthRepo(d: Snapshot, repoFilename: string, repoUrl: string, keyring: string, fingerprint: string)
    : (Outcome, Snapshot)
  {
    var d1 := RemoveKey(d.(files := d.files - {repoFilename}), keyring, fingerprint);
    match RepoUrlParts(repoUrl)
    case Err(e) => (Fail(e), d1)
    case Ok((_, path)) =>
      if AptAuthFile !in d1.files then (Pass, d1)
      else
        var content := RemoveAuthLines(d1.files[AptAuthFile].content, path);
        if content == "" then (Pass, d1.(files := d1.files - {AptAuthFile}))
        else (Pass, d1.(files := d1.files[AptAuthFile := File(content, AuthMode)]))
  }

  method RemoveAuthAptRepo(fs: FileSystem, repoFilename: string, repoUrl: string, keyring: string, fingerprint: string)
    returns (r: Outcome)
    modifies fs
    ensures (r, fs.State()) == RemoveAuthRepo(old(fs.State()), repoFilename, repoUrl, keyring, fingerprint)
  {
    fs.Delete(repoFilename);
    if keyring != "" {
      fs.Delete(keyring);
    } else if fingerprint != "" {
      fs.Run(AptKeyDelete(fingerprint));
    }
    var parts := RepoUrlParts(repoUrl);
    if parts.Err? {
      return Fail(parts.error);
    }
    var (_, path) := parts.value;
    if fs.Exists(AptAuthFile) {
      var content := RemoveAuthLines(fs.Load(AptAuthFile).value, path);
      if content == "" {
        fs.Delete(AptAuthFile);
      } else {
        fs.Write(AptAuthFile, content, AuthMode);
      }
    }
    return Pass;
  }

  /** Removal drops the list file, keeps only the other repositories'
      lines of `auth.conf` with mode 0600, and deletes `auth.conf` when no
      line is left; the keyring file, or else the key, goes too. */
  lemma RemoveAuthRepoMeaning(d: Snapshot, repoFilename: string, repoUrl: string, keyring: string, fingerprint: string)
    requires RepoUrlParts(repoUrl).Ok?
    requires repoFilename != AptAuthFile && keyring != AptAuthFile
    ensures var r := RemoveAuthRepo(d, repoFilename, repoUrl, keyring, fingerprint);
      var path := RepoUrlParts(repoUrl).value.1;
      && r.0 == Pass
      && repoFilename !in r.1.files
      && (keyring != "" ==> keyring !in r.1.files && r.1.commands == d.commands)
      && (keyring == "" && fingerprint != "" ==> r.1.commands == d.commands + [AptKeyDelete(fingerprint)])
      && (keyring == "" && fingerprint == "" ==> r.1.commands == d.commands)
      && (AptAuthFile !in d.files ==> AptAuthFile !in r.1.files)
      && (AptAuthFile in d.files ==>
            var kept := RemoveAuthLines(d.files[AptAuthFile].content, path);
            && (kept == "" ==> AptAuthFile !in r.1.files)
            && (kept != "" ==> AptAuthFile in r.1.files && r.1.files[AptAuthFile] == File(kept, AuthMode)))
  {
  }

  /** Removal deletes the keyring path it is given, not a copy of it in
      the keys directory: such a copy stays as it was. */
  lemma RemoveKeepsKeyringCopy(d: Snapshot, repoFilename: string, repoUrl: string, keyring: string, fingerprint: string)
    requires keyring != "" && CopyTarget(keyring, AptKeysDir) in d.files
    requires CopyTarget(keyring, AptKeysDir) != repoFilename && CopyTarget(keyring, AptKeysDir) != keyring
    ensures var target := CopyTarget(keyring, AptKeysDir);
      var r := RemoveAuthRepo(d, repoFilename, repoUrl, keyring, fingerprint);
      target in r.1.files && r.1.files[target] == d.files[target]
  {
    KeysDirElsewhere(Basename(keyring));
  }

  /** The URL's path and the login and password carry no newline when the
      URL and the credentials carry none. */
  lemma FieldsLackNewline(repoUrl: string, credentials: string)
    requires RepoUrlParts(repoUrl).Ok? && |Split(credentials, ":")| == 2
    requires Lacks(repoUrl, '\n') && Lacks(credentials, '\n')
    ensures Lacks(RepoUrlParts(repoUrl).value.1, '\n')
    ensures Lacks(Split(credentials, ":")[0], '\n') && Lacks(Split(credentials, ":")[1], '\n')
  {
    SplitPiecesLack(repoUrl, "://", '\n');
    assert RepoUrlParts(repoUrl).value.1 in Split(repoUrl, "://");
    var creds := Split(credentials, ":");
    SplitPiecesLack(credentials, ":", '\n');
    assert creds[0] in creds && creds[1] in creds;
  }

  /** Removing after adding takes `auth.conf` back to its earlier text
      (now with mode 0600), or deletes it when it was missing or empty;
      the list file is gone. The earlier text must end with a newline and
      hold no line of this repository. */
  lemma AddThenRemoveRestoresAuth(d: Snapshot, repoFilename: string, repoUrl: string, credentials: string,
                                  series: string, keyring: string, fingerprint: string, downloadOk: bool)
    requires RepoUrlParts(repoUrl).Ok? && (AptHelper !in d.files || downloadOk)
    requires |Split(credentials, ":")| == 2
    requires repoFilename != AptAuthFile && keyring != AptAuthFile
    requires Lacks(repoUrl, '\n') && Lacks(credentials, '\n')
    requires var c := AuthContent(d.files);
      (c == "" || c[|c| - 1] == '\n') && RemoveAuthLines(c, RepoUrlParts(repoUrl).value.1) == c
    ensures var added := AddAuthRepo(d, repoFilename, repoUrl, credentials, series, keyring, fingerprint, downloadOk);
      var removed := RemoveAuthRepo(added.1, repoFilename, repoUrl, keyring, fingerprint);
      var c := AuthContent(d.files);
      && removed.0 == Pass
      && repoFilename !in removed.1.files
      && (c == "" ==> AptAuthFile !in removed.1.files)
      && (c != "" ==> AptAuthFile in removed.1.files && removed.1.files[AptAuthFile] == File(c, AuthMode))
  {
    var path := RepoUrlParts(repoUrl).value.1;
    var creds := Split(credentials, ":");
    var c := AuthContent(d.files);
    var added := AddAuthRepo(d, repoFilename, repoUrl, credentials, series, keyring, fingerprint, downloadOk);
    AddAuthRepoSucceeds(d, repoFilename, repoUrl, credentials, series, keyring, fingerprint, downloadOk);
    KeysDirElsewhere(Basename(keyring));
    assert added.1.files[AptAuthFile].content == c + AuthLine(path, creds[0], creds[1]);
    FieldsLackNewline(repoUrl, credentials);
    RemoveAfterAppend(c, path, creds[0], creds[1]);
    RemoveAuthRepoMeaning(added.1, repoFilename, repoUrl, keyring, fingerprint);
  }

  // ---------------------------------------------------------------------
  // add_repo_pinning

  method AddRepoPinning(fs: FileSystem, preferenceFile: string, origin: string, series: string, priority: int)
    modifies fs
    ensures fs.files == old(fs.files)[preferenceFile := File(PinContent(origin, series, priority), DefaultMode)]
    ensures fs.commands == old(fs.commands)
  {
    fs.Write(preferenceFile, PinContent(origin, series, priority), DefaultMode);
  }
}
