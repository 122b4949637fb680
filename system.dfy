/** `uaclient/system.py`: the kernel release parsers, `/etc/os-release`
    parsing, the release and series of `get_platform_info`, the
    `should_reboot` decision and the machine-id sources. Regular
    expressions are written out as hand parsers over ASCII text. */
module System {
  import opened Errors
  import opened Strings
  import opened Files

  const RebootFileCheckPath: string := "/var/run/reboot-required"
  const RebootPkgsFilePath: string := "/var/run/reboot-required.pkgs"
  const EtcMachineId: string := "/etc/machine-id"
  const DbusMachineId: string := "/var/lib/dbus/machine-id"
  const ProcVersionSignature: string := "/proc/version_signature"
  const DefaultOsRelease: string := "/etc/os-release"

  // ---------------------------------------------------------------------
  // Character classes of the kernel grammars

  /** `[.-]` */
  predicate IsSeparator(c: char) { c == '.' || c == '-' }

  /** A literal `.` */
  predicate IsDot(c: char) { c == '.' }

  /** A literal space. */
  predicate IsBlank(c: char) { c == ' ' }

  /** `[A-Za-z0-9_-]` */
  predicate IsFlavorChar(c: char) { IsWordChar(c) || c == '-' }

  /** `[\d.]` */
  predicate IsHweChar(c: char) { IsDigit(c) || c == '.' }

  /** `\d+` as a whole string. */
  predicate Digits(s: string) { |s| > 0 && AllDigits(s) }

  /** `[A-Za-z0-9_-]+` as a whole string. */
  predicate IsFlavor(s: string) { |s| > 0 && forall i :: 0 <= i < |s| ==> IsFlavorChar(s[i]) }

  /** `[\d.]+` as a whole string. */
  predicate IsHwe(s: string) { |s| > 0 && forall i :: 0 <= i < |s| ==> IsHweChar(s[i]) }

  /** What a `$` anchor leaves to match: Python's `$` also matches just
      before one final newline. */
  function BeforeFinalNewline(s: string): (r: string)
    ensures r == s || s == r + "\n"
  {
    if |s| > 0 && s[|s| - 1] == '\n' then s[..|s| - 1] else s
  }

  lemma BeforeFinalNewlineOf(t: string)
    requires |t| > 0 && t[|t| - 1] != '\n'
    ensures BeforeFinalNewline(t) == t && BeforeFinalNewline(t + "\n") == t
  {
    assert (t + "\n")[..|t|] == t;
  }

  // ---------------------------------------------------------------------
  // `[\d]+[.-][\d]+[.-][\d]+`

  datatype KernelVersion = KernelVersion(major: string, sep1: char, minor: string, sep2: char, patch: string)

  predicate WellFormedVersion(v: KernelVersion)
  {
    Digits(v.major) && IsSeparator(v.sep1) && Digits(v.minor) && IsSeparator(v.sep2) && Digits(v.patch)
  }

  /** The text the version group matches, followed by `rest`. */
  function VersionThen(v: KernelVersion, rest: string): (r: string)
    ensures |rest| > 0 ==> |r| > 0 && r[|r| - 1] == rest[|rest| - 1]
  {
    v.major + ([v.sep1] + (v.minor + ([v.sep2] + (v.patch + rest))))
  }

  /** The text the version group matches. */
  function VersionText(v: KernelVersion): (r: string)
    ensures |r| > 0 && (WellFormedVersion(v) ==> IsDigit(r[|r| - 1]))
  {
    v.major + [v.sep1] + v.minor + [v.sep2] + v.patch
  }

  lemma VersionThenText(v: KernelVersion, rest: string)
    ensures VersionThen(v, rest) == VersionText(v) + rest
  {
  }

  /** A run of digits and the character after it, which `p` accepts, at
      the start of `s`. */
  function MatchDigitsThen(s: string, p: char -> bool): Option<(string, char, string)>
  {
    var (a, r) := TakeWhile(s, IsDigit);
    if |a| == 0 || |r| == 0 || !p(r[0]) then None else Some((a, r[0], r[1..]))
  }

  lemma MatchDigitsThenSound(s: string, p: char -> bool)
    requires MatchDigitsThen(s, p).Some?
    ensures var (a, c, rest) := MatchDigitsThen(s, p).value;
      Digits(a) && p(c) && s == a + ([c] + rest)
  {
    var (a, r) := TakeWhile(s, IsDigit);
    assert r == [r[0]] + r[1..];
  }

  lemma MatchDigitsThenOf(a: string, c: char, rest: string, p: char -> bool)
    requires Digits(a) && p(c) && !IsDigit(c)
    ensures MatchDigitsThen(a + ([c] + rest), p) == Some((a, c, rest))
  {
    TakeWhileOf(a, [c] + rest, IsDigit);
    assert ([c] + rest)[1..] == rest;
  }

  /** The version pattern matched at the start of `s`: its parts and the
      text after it. Each `\d+` is followed by a non-digit or the end, so
      the greedy runs are the only way to match. */
  function MatchVersion(s: string): Option<(KernelVersion, string)>
  {
    match MatchDigitsThen(s, IsSeparator)
    case None => None
    case Some((a, sep1, r1)) =>
      match MatchDigitsThen(r1, IsSeparator)
      case None => None
      case Some((b, sep2, r2)) =>
        var (c, r3) := TakeWhile(r2, IsDigit);
        if |c| == 0 then None
        else Some((KernelVersion(a, sep1, b, sep2, c), r3))
  }

  /** A match is a well-formed version followed by a non-digit. */
  lemma MatchVersionSound(s: string)
    requires MatchVersion(s).Some?
    ensures var (v, rest) := MatchVersion(s).value;
      WellFormedVersion(v) && s == VersionThen(v, rest) && (|rest| > 0 ==> !IsDigit(rest[0]))
  {
    MatchDigitsThenSound(s, IsSeparator);
    var (a, sep1, r1) := MatchDigitsThen(s, IsSeparator).value;
    MatchDigitsThenSound(r1, IsSeparator);
  }

  /** Every well-formed version, followed by anything that does not start
      with a digit, is matched. */
  lemma MatchVersionOf(v: KernelVersion, rest: string)
    requires WellFormedVersion(v)
    requires |rest| > 0 ==> !IsDigit(rest[0])
    ensures MatchVersion(VersionThen(v, rest)) == Some((v, rest))
  {
    var r2 := v.patch + rest;
    var r1 := v.minor + ([v.sep2] + r2);
    MatchDigitsThenOf(v.major, v.sep1, r1, IsSeparator);
    MatchDigitsThenOf(v.minor, v.sep2, r2, IsSeparator);
    TakeWhileOf(v.patch, rest, IsDigit);
  }

  // ---------------------------------------------------------------------
  // RE_KERNEL_UNAME: `^version-abi-flavor$`

  datatype UnameRelease = UnameRelease(version: KernelVersion, abi: string, flavor: string)

  predicate WellFormedUname(u: UnameRelease)
  {
    WellFormedVersion(u.version) && Digits(u.abi) && IsFlavor(u.flavor)
  }

  function UnameText(u: UnameRelease): string
  {
    VersionThen(u.version, "-" + (u.abi + ("-" + u.flavor)))
  }

  /** `-(\d+)-([A-Za-z0-9_-]+)` as the whole of `r1`. */
  function MatchUnameTail(r1: string): Option<(string, string)>
  {
    if |r1| == 0 || r1[0] != '-' then None
    else
      var (abi, r2) := TakeWhile(r1[1..], IsDigit);
      if |abi| == 0 || |r2| == 0 || r2[0] != '-' || !IsFlavor(r2[1..]) then None
      else Some((abi, r2[1..]))
  }

  lemma MatchUnameTailSound(r1: string)
    requires MatchUnameTail(r1).Some?
    ensures var (abi, flavor) := MatchUnameTail(r1).value;
      Digits(abi) && IsFlavor(flavor) && r1 == "-" + (abi + ("-" + flavor))
  {
    var (abi, r2) := TakeWhile(r1[1..], IsDigit);
    assert r1 == "-" + r1[1..];
    assert r2 == "-" + r2[1..];
  }

  lemma MatchUnameTailOf(abi: string, flavor: string)
    requires Digits(abi) && IsFlavor(flavor)
    ensures MatchUnameTail("-" + (abi + ("-" + flavor))) == Some((abi, flavor))
  {
    var r2 := "-" + flavor;
    assert ("-" + (abi + r2))[1..] == abi + r2;
    TakeWhileOf(abi, r2, IsDigit);
    assert r2[1..] == flavor;
  }

  function MatchUname(s: string): Option<UnameRelease>
  {
    match MatchVersion(BeforeFinalNewline(s))
    case None => None
    case Some((v, r1)) =>
      match MatchUnameTail(r1)
      case None => None
      case Some((abi, flavor)) => Some(UnameRelease(v, abi, flavor))
  }

  lemma MatchUnameSound(s: string)
    requires MatchUname(s).Some?
    ensures var u := MatchUname(s).value;
      WellFormedUname(u) && (s == UnameText(u) || s == UnameText(u) + "\n")
  {
    var body := BeforeFinalNewline(s);
    MatchVersionSound(body);
    var (v, r1) := MatchVersion(body).value;
    MatchUnameTailSound(r1);
  }

  lemma MatchUnameOf(u: UnameRelease)
    requires WellFormedUname(u)
    ensures MatchUname(UnameText(u)) == Some(u)
    ensures MatchUname(UnameText(u) + "\n") == Some(u)
  {
    var t := UnameText(u);
    assert t[|t| - 1] == u.flavor[|u.flavor| - 1];
    BeforeFinalNewlineOf(t);
    MatchVersionOf(u.version, "-" + (u.abi + ("-" + u.flavor)));
    MatchUnameTailOf(u.abi, u.flavor);
  }

  /** The uname pattern accepts exactly the rendered releases, with or
      without one final newline. */
  lemma MatchUnameExactly(s: string, u: UnameRelease)
    ensures MatchUname(s) == Some(u) <==> WellFormedUname(u) && (s == UnameText(u) || s == UnameText(u) + "\n")
  {
    if MatchUname(s) == Some(u) {
      MatchUnameSound(s);
    }
    if WellFormedUname(u) {
      MatchUnameOf(u);
    }
  }

  // ---------------------------------------------------------------------
  // RE_KERNEL_PROC_VERSION_SIGNATURE:
  // `^version-abi[.-]subrev(~hwerev)?-flavor$`

  datatype SignatureVersion = SignatureVersion(
    version: KernelVersion, abi: string, abiSep: char, subrev: string, hwerev: Option<string>, flavor: string)

  predicate WellFormedSignature(g: SignatureVersion)
  {
    && WellFormedVersion(g.version) && Digits(g.abi) && IsSeparator(g.abiSep) && Digits(g.subrev)
    && (g.hwerev.Some? ==> IsHwe(g.hwerev.value)) && IsFlavor(g.flavor)
  }

  function HweThen(h: Option<string>, rest: string): (r: string)
    ensures |rest| > 0 ==> |r| > 0 && r[|r| - 1] == rest[|rest| - 1]
  {
    if h.Some? then "~" + (h.value + rest) else rest
  }

  /** The text after the version group. */
  function SignatureTailText(g: SignatureVersion): (r: string)
    ensures var f := "-" + g.flavor; |r| > 0 && r[|r| - 1] == f[|f| - 1]
  {
    "-" + (g.abi + ([g.abiSep] + (g.subrev + HweThen(g.hwerev, "-" + g.flavor))))
  }

  function SignatureText(g: SignatureVersion): string
  {
    VersionThen(g.version, SignatureTailText(g))
  }

  /** `(~([\d.]+))?-([A-Za-z0-9_-]+)` as the whole of `r3`. */
  function MatchHweFlavor(r3: string): Option<(Option<string>, string)>
  {
    if |r3| == 0 then None
    else if r3[0] == '~' then
      var (hwe, r4) := TakeWhile(r3[1..], IsHweChar);
      if |hwe| == 0 || |r4| == 0 || r4[0] != '-' || !IsFlavor(r4[1..]) then None
      else Some((Some(hwe), r4[1..]))
    else if r3[0] == '-' && IsFlavor(r3[1..]) then Some((None, r3[1..]))
    else None
  }

  lemma MatchHweFlavorSound(r3: string)
    requires MatchHweFlavor(r3).Some?
    ensures var (hwe, flavor) := MatchHweFlavor(r3).value;
      (hwe.Some? ==> IsHwe(hwe.value)) && IsFlavor(flavor) && r3 == HweThen(hwe, "-" + flavor)
  {
    assert r3 == [r3[0]] + r3[1..];
    if r3[0] == '~' {
      var (hwe, r4) := TakeWhile(r3[1..], IsHweChar);
      assert r4 == "-" + r4[1..];
    }
  }

  lemma MatchHweFlavorOf(hwe: Option<string>, flavor: string)
    requires hwe.Some? ==> IsHwe(hwe.value)
    requires IsFlavor(flavor)
    ensures MatchHweFlavor(HweThen(hwe, "-" + flavor)) == Some((hwe, flavor))
  {
    var r3 := HweThen(hwe, "-" + flavor);
    if hwe.Some? {
      assert r3[1..] == hwe.value + ("-" + flavor);
      TakeWhileOf(hwe.value, "-" + flavor, IsHweChar);
      assert ("-" + flavor)[1..] == flavor;
    } else {
      assert r3[1..] == flavor;
    }
  }

  /** `-(\d+)[.-](\d+)` and the rest, as the whole of `r1`. */
  function MatchSignatureTail(r1: string): Option<(string, char, string, Option<string>, string)>
  {
    if |r1| == 0 || r1[0] != '-' then None
    else
      match MatchDigitsThen(r1[1..], IsSeparator)
      case None => None
      case Some((abi, sep, r2)) =>
        var (subrev, r3) := TakeWhile(r2, IsDigit);
        if |subrev| == 0 then None
        else match MatchHweFlavor(r3)
          case None => None
          case Some((hwe, flavor)) => Some((abi, sep, subrev, hwe, flavor))
  }

  lemma MatchSignatureTailSound(r1: string)
    requires MatchSignatureTail(r1).Some?
    ensures var (abi, sep, subrev, hwe, flavor) := MatchSignatureTail(r1).value;
      && Digits(abi) && IsSeparator(sep) && Digits(subrev)
      && (hwe.Some? ==> IsHwe(hwe.value)) && IsFlavor(flavor)
      && r1 == "-" + (abi + ([sep] + (subrev + HweThen(hwe, "-" + flavor))))
  {
    MatchDigitsThenSound(r1[1..], IsSeparator);
    var (abi, sep, r2) := MatchDigitsThen(r1[1..], IsSeparator).value;
    var (subrev, r3) := TakeWhile(r2, IsDigit);
    MatchHweFlavorSound(r3);
    assert r1 == "-" + r1[1..];
  }

  lemma MatchSignatureTailOf(g: SignatureVersion)
    requires WellFormedSignature(g)
    ensures MatchSignatureTail(SignatureTailText(g)) == Some((g.abi, g.abiSep, g.subrev, g.hwerev, g.flavor))
  {
    var r3 := HweThen(g.hwerev, "-" + g.flavor);
    var r2 := g.subrev + r3;
    var r1 := SignatureTailText(g);
    MatchHweFlavorOf(g.hwerev, g.flavor);
    assert |r3| > 0 && !IsDigit(r3[0]) by {
      if g.hwerev.Some? {
        assert r3[0] == '~';
      } else {
        assert r3[0] == '-';
      }
    }
    TakeWhileOf(g.subrev, r3, IsDigit);
    MatchDigitsThenOf(g.abi, g.abiSep, r2, IsSeparator);
    assert r1 == "-" + (g.abi + ([g.abiSep] + r2));
    assert r1[1..] == g.abi + ([g.abiSep] + r2);
  }

  function MatchSignature(s: string): Option<SignatureVersion>
  {
    match MatchVersion(BeforeFinalNewline(s))
    case None => None
    case Some((v, r1)) =>
      match MatchSignatureTail(r1)
      case None => None
      case Some((abi, sep, subrev, hwe, flavor)) => Some(SignatureVersion(v, abi, sep, subrev, hwe, flavor))
  }

  lemma MatchSignatureSound(s: string)
    requires MatchSignature(s).Some?
    ensures var g := MatchSignature(s).value;
      WellFormedSignature(g) && (s == SignatureText(g) || s == SignatureText(g) + "\n")
  {
    var body := BeforeFinalNewline(s);
    MatchVersionSound(body);
    var (v, r1) := MatchVersion(body).value;
    MatchSignatureTailSound(r1);
  }

  lemma MatchSignatureOf(g: SignatureVersion)
    requires WellFormedSignature(g)
    ensures MatchSignature(SignatureText(g)) == Some(g)
    ensures MatchSignature(SignatureText(g) + "\n") == Some(g)
  {
    var t := SignatureText(g);
    assert t[|t| - 1] == g.flavor[|g.flavor| - 1];
    BeforeFinalNewlineOf(t);
    MatchVersionOf(g.version, SignatureTailText(g));
    MatchSignatureTailOf(g);
  }

  /** The signature pattern accepts exactly the rendered signature
      versions, with or without one final newline. */
  lemma MatchSignatureExactly(s: string, g: SignatureVersion)
    ensures MatchSignature(s) == Some(g) <==> WellFormedSignature(g) && (s == SignatureText(g) || s == SignatureText(g) + "\n")
  {
    if MatchSignature(s) == Some(g) {
      MatchSignatureSound(s);
    }
    if WellFormedSignature(g) {
      MatchSignatureOf(g);
    }
  }

  // ---------------------------------------------------------------------
  // RE_KERNEL_VERSION_SPLIT and `get_kernel_info`

  /** `^(\d+)[.-](\d+)[.-](\d+)$` */
  function SplitVersion(s: string): Option<KernelVersion>
  {
    match MatchVersion(BeforeFinalNewline(s))
    case None => None
    case Some((v, rest)) => if rest == "" then Some(v) else None
  }

  /** The split pattern is the version group's own pattern, so it splits
      every version text the first match produced. */
  lemma SplitVersionOf(v: KernelVersion)
    requires WellFormedVersion(v)
    ensures SplitVersion(VersionText(v)) == Some(v)
  {
    var t := VersionText(v);
    BeforeFinalNewlineOf(t);
    assert t == VersionThen(v, "") by {
      VersionThenText(v, "");
      assert t + "" == t;
    }
    MatchVersionOf(v, "");
  }

  datatype KernelInfo = KernelInfo(
    unameRelease: string,
    procVersionSignatureFull: string,
    procVersionSignatureVersion: string,
    version: string,
    major: string,
    minor: string,
    patch: string,
    abi: string,
    subrev: string,
    hwerev: string,
    flavor: string)

  /** The groups the first match yields. */
  datatype KernelMatch = KernelMatch(version: string, abi: string, subrev: string, hwerev: string, flavor: string)

  /** The `try` block: the signature file's content and its second
      space-separated field. A missing file leaves both empty; a file with
      no second field keeps its content and leaves the field empty. */
  function SignatureFields(signature: Result<string>): (string, string)
  {
    if signature.Err? then ("", "")
    else
      var parts := Split(signature.value, " ");
      (signature.value, if |parts| >= 2 then parts[1] else "")
  }

  /** The signature when the file had content, uname otherwise. */
  function MatchKernel(uname: string, full: string, sigVersion: string): Result<KernelMatch>
  {
    if full != "" then
      match MatchSignature(sigVersion)
      case None => Err(UserFacingError(FailedToParseKernel(sigVersion)))
      case Some(g) =>
        Ok(KernelMatch(VersionText(g.version), g.abi, g.subrev, if g.hwerev.Some? then g.hwerev.value else "", g.flavor))
    else
      match MatchUname(uname)
      case None => Err(UserFacingError(FailedToParseKernel(uname)))
      case Some(u) => Ok(KernelMatch(VersionText(u.version), u.abi, "", "", u.flavor))
  }

  /** `get_kernel_info`, given `os.uname().release` and the result of
      loading `/proc/version_signature`. */
  function KernelInfoOf(uname: string, signature: Result<string>): Result<KernelInfo>
  {
    var (full, sigVersion) := SignatureFields(signature);
    match MatchKernel(uname, full, sigVersion)
    case Err(e) => Err(e)
    case Ok(m) =>
      match SplitVersion(m.version)
      case None => Err(UserFacingError(FailedToSplitKernelVersion(m.version)))
      case Some(v) =>
        Ok(KernelInfo(uname, full, sigVersion, m.version, v.major, v.minor, v.patch, m.abi, m.subrev, m.hwerev, m.flavor))
  }

  /** Splitting the version never fails once a kernel pattern matched:
      every failure is a parse failure. */
  lemma KernelErrorsAreParseErrors(uname: string, signature: Result<string>)
    ensures var r := KernelInfoOf(uname, signature);
      r.Err? ==> r.error.UserFacingError? && r.error.message.FailedToParseKernel?
  {
    var (full, sigVersion) := SignatureFields(signature);
    var m := MatchKernel(uname, full, sigVersion);
    if m.Ok? {
      MatchedVersionSplits(uname, full, sigVersion);
    }
  }

  /** On success the version is its three digit groups joined by
      separators. */
  lemma KernelVersionAlwaysSplits(uname: string, signature: Result<string>)
    requires KernelInfoOf(uname, signature).Ok?
    ensures var k := KernelInfoOf(uname, signature).value;
      exists v :: WellFormedVersion(v) && VersionText(v) == k.version
                  && v.major == k.major && v.minor == k.minor && v.patch == k.patch
  {
    var (full, sigVersion) := SignatureFields(signature);
    var k := MatchKernel(uname, full, sigVersion).value;
    MatchedVersionSplits(uname, full, sigVersion);
    var v := SplitVersion(k.version).value;
    assert WellFormedVersion(v) && VersionText(v) == k.version;
  }

  /** The version group of either pattern is something the split pattern
      splits. */
  lemma MatchedVersionSplits(uname: string, full: string, sigVersion: string)
    requires MatchKernel(uname, full, sigVersion).Ok?
    ensures var t := MatchKernel(uname, full, sigVersion).value.version;
      SplitVersion(t).Some? && WellFormedVersion(SplitVersion(t).value) && VersionText(SplitVersion(t).value) == t
  {
    var v: KernelVersion;
    if full != "" {
      MatchSignatureSound(sigVersion);
      v := MatchSignature(sigVersion).value.version;
    } else {
      MatchUnameSound(uname);
      v := MatchUname(uname).value.version;
    }
    SplitVersionOf(v);
  }

  /** Without signature content the kernel comes from uname: subrev and
      hwerev are empty, and a uname that does not match is the error. */
  lemma KernelFromUname(uname: string, signature: Result<string>)
    requires signature.Err? || signature == Ok("")
    ensures var r := KernelInfoOf(uname, signature);
      && (r.Ok? <==> MatchUname(uname).Some?)
      && (r.Err? ==> r.error == UserFacingError(FailedToParseKernel(uname)))
      && (r.Ok? ==> var u := MatchUname(uname).value;
            && r.value.unameRelease == uname && r.value.procVersionSignatureFull == ""
            && r.value.version == VersionText(u.version) && r.value.abi == u.abi
            && r.value.subrev == "" && r.value.hwerev == "" && r.value.flavor == u.flavor)
  {
    assert SignatureFields(signature).0 == "";
    if MatchUname(uname).Some? {
      MatchUnameSound(uname);
      SplitVersionOf(MatchUname(uname).value.version);
    }
  }

  /** With signature content the kernel comes from its second field,
      whatever uname says; hwerev is empty when the `~` group is absent. */
  lemma KernelFromSignature(uname: string, content: string)
    requires content != ""
    ensures var r := KernelInfoOf(uname, Ok(content));
      var field := SignatureFields(Ok(content)).1;
      && (r.Ok? <==> MatchSignature(field).Some?)
      && (r.Err? ==> r.error == UserFacingError(FailedToParseKernel(field)))
      && (r.Ok? ==> var g := MatchSignature(field).value;
            && r.value.unameRelease == uname && r.value.procVersionSignatureFull == content
            && r.value.procVersionSignatureVersion == field
            && r.value.version == VersionText(g.version) && r.value.abi == g.abi && r.value.subrev == g.subrev
            && r.value.hwerev == (if g.hwerev.Some? then g.hwerev.value else "") && r.value.flavor == g.flavor)
  {
    var field := SignatureFields(Ok(content)).1;
    if MatchSignature(field).Some? {
      MatchSignatureSound(field);
      SplitVersionOf(MatchSignature(field).value.version);
    }
  }

  /** A signature file with content but no second field fails to parse;
      it does not fall back to uname. */
  lemma SignatureWithoutSecondField(uname: string, content: string)
    requires content != "" && !Contains(content, " ")
    ensures KernelInfoOf(uname, Ok(content)) == Err(UserFacingError(FailedToParseKernel("")))
  {
    assert Split(content, " ") == [content];
    assert MatchVersion("") == None;
  }

  predicate NoSpace(s: string)
  {
    forall i :: 0 <= i < |s| ==> s[i] != ' '
  }

  lemma NoSpaceConcat(a: string, b: string)
    requires NoSpace(a) && NoSpace(b)
    ensures NoSpace(a + b)
  {
    forall i | 0 <= i < |a + b| ensures (a + b)[i] != ' ' {
      if i >= |a| {
        assert (a + b)[i] == b[i - |a|];
      }
    }
  }

  lemma NoSpaceNotContained(s: string)
    requires NoSpace(s)
    ensures !Contains(s, " ")
  {
    forall k: nat ensures !OccursAt(s, " ", k) {
      if k + 1 <= |s| {
        assert s[k..k + 1][0] == s[k];
      }
    }
  }

  lemma SignatureTextNoSpace(g: SignatureVersion)
    requires WellFormedSignature(g)
    ensures NoSpace(SignatureText(g))
  {
    var v := g.version;
    var flavor := "-" + g.flavor;
    var hwe := HweThen(g.hwerev, flavor);
    NoSpaceConcat("-", g.flavor);
    if g.hwerev.Some? {
      NoSpaceConcat(g.hwerev.value, flavor);
      NoSpaceConcat("~", g.hwerev.value + flavor);
    }
    NoSpaceConcat(g.subrev, hwe);
    NoSpaceConcat([g.abiSep], g.subrev + hwe);
    NoSpaceConcat(g.abi, [g.abiSep] + (g.subrev + hwe));
    var tail := SignatureTailText(g);
    NoSpaceConcat("-", g.abi + ([g.abiSep] + (g.subrev + hwe)));
    NoSpaceConcat(v.patch, tail);
    NoSpaceConcat([v.sep2], v.patch + tail);
    NoSpaceConcat(v.minor, [v.sep2] + (v.patch + tail));
    NoSpaceConcat([v.sep1], v.minor + ([v.sep2] + (v.patch + tail)));
    NoSpaceConcat(v.major, [v.sep1] + (v.minor + ([v.sep2] + (v.patch + tail))));
  }

  /** A signature file whose second field is a well-formed signature
      version yields that version's groups. */
  lemma KernelInfoOfSignature(uname: string, word: string, g: SignatureVersion, tail: string)
    requires WellFormedSignature(g) && !Contains(word, " ")
    ensures var content := word + " " + (SignatureText(g) + " " + tail);
      KernelInfoOf(uname, Ok(content)) == Ok(KernelInfo(
        uname, content, SignatureText(g), VersionText(g.version), g.version.major, g.version.minor, g.version.patch,
        g.abi, g.subrev, if g.hwerev.Some? then g.hwerev.value else "", g.flavor))
  {
    var t := SignatureText(g);
    SignatureTextNoSpace(g);
    NoSpaceNotContained(t);
    SplitConcat(word, " ", t + " " + tail);
    SplitConcat(t, " ", tail);
    assert Split(word, " ") == [word];
    assert Split(t, " ") == [t];
    assert SignatureFields(Ok(word + " " + (t + " " + tail))).1 == t;
    MatchSignatureOf(g);
    SplitVersionOf(g.version);
  }

  /** A well-formed uname release, with no signature file, yields its own
      groups. */
  lemma KernelInfoOfUname(u: UnameRelease, missing: Error)
    requires WellFormedUname(u)
    ensures KernelInfoOf(UnameText(u), Err(missing)) == Ok(KernelInfo(
      UnameText(u), "", "", VersionText(u.version), u.version.major, u.version.minor, u.version.patch,
      u.abi, "", "", u.flavor))
  {
    MatchUnameOf(u);
    SplitVersionOf(u.version);
  }

  // ---------------------------------------------------------------------
  // `parse_os_release`

  predicate IsQuote(c: char) { c == '"' }

  /** `value.strip().strip('"')` */
  function CleanValue(v: string): string
  {
    Strip(Strip(v, IsSpace), IsQuote)
  }

  /** What one line contributes to the dictionary: its key and cleaned
      value, when the line has a non-empty value. */
  function Entry(line: string): Option<(string, string)>
  {
    var kv := SplitOnce(line, "=");
    if |kv| == 2 && kv[1] != "" then Some((kv[0], CleanValue(kv[1]))) else None
  }

  predicate Defines(line: string, key: string)
  {
    Entry(line).Some? && Entry(line).value.0 == key
  }

  /** No line after `i` defines `key`. */
  predicate LastDefinition(lines: seq<string>, i: int, key: string)
  {
    forall j :: 0 <= j < |lines| && i < j ==> !Defines(lines[j], key)
  }

  /** What unpacking a one-element split into two names raises. */
  const UnpackError: string := "not enough values to unpack (expected 2, got 1)"

  /** The dictionary after one line with an `=`. */
  function Update(data: map<string, string>, line: string): map<string, string>
  {
    var e := Entry(line);
    if e.Some? then data[e.value.0 := e.value.1] else data
  }

  /** The loop over `lines`, with `data` filled so far. */
  function OsReleaseFrom(lines: seq<string>, data: map<string, string>): Result<map<string, string>>
    decreases |lines|
  {
    if |lines| == 0 then Ok(data)
    else if !Contains(lines[0], "=") then Err(ValueError(UnpackError))
    else OsReleaseFrom(lines[1..], Update(data, lines[0]))
  }

  /** The dictionary `parse_os_release` builds from a file's content. */
  function OsRelease(content: string): Result<map<string, string>>
  {
    OsReleaseFrom(SplitLines(content), map[])
  }

  /** The path read when no release file is named. */
  function OsReleasePath(releaseFile: Option<string>): string
  {
    if releaseFile.None? || releaseFile.value == "" then DefaultOsRelease else releaseFile.value
  }

  /** Parsing fails exactly when some line has no `=`. */
  lemma {:induction false} OsReleaseFromFails(lines: seq<string>, data: map<string, string>)
    ensures OsReleaseFrom(lines, data).Err? <==> exists i :: 0 <= i < |lines| && !Contains(lines[i], "=")
    ensures OsReleaseFrom(lines, data).Err? ==> OsReleaseFrom(lines, data).error == ValueError(UnpackError)
    decreases |lines|
  {
    if |lines| > 0 && Contains(lines[0], "=") {
      OsReleaseFromFails(lines[1..], Update(data, lines[0]));
      if exists i :: 0 <= i < |lines| && !Contains(lines[i], "=") {
        var i :| 0 <= i < |lines| && !Contains(lines[i], "=");
        assert lines[1..][i - 1] == lines[i];
      }
    }
  }

  /** Some line defines `key`. */
  predicate DefinedIn(lines: seq<string>, key: string)
  {
    exists i :: 0 <= i < |lines| && Defines(lines[i], key)
  }

  /** Some element satisfies `p` exactly when the first does or some
      later one does. */
  lemma SomeCons(lines: seq<string>, p: string -> bool)
    requires |lines| > 0
    ensures (exists i :: 0 <= i < |lines| && p(lines[i])) <==>
      p(lines[0]) || exists i :: 0 <= i < |lines[1..]| && p(lines[1..][i])
  {
    if exists i :: 0 <= i < |lines| && p(lines[i]) {
      var i :| 0 <= i < |lines| && p(lines[i]);
      if i > 0 {
        assert lines[1..][i - 1] == lines[i];
      }
    }
    if exists i :: 0 <= i < |lines[1..]| && p(lines[1..][i]) {
      var i :| 0 <= i < |lines[1..]| && p(lines[1..][i]);
      assert lines[i + 1] == lines[1..][i];
    }
  }

  lemma DefinedInCons(lines: seq<string>, key: string)
    requires |lines| > 0
    ensures DefinedIn(lines, key) <==> Defines(lines[0], key) || DefinedIn(lines[1..], key)
  {
    var p := l => Defines(l, key);
    SomeCons(lines, p);
    assert DefinedIn(lines, key) <==> exists i :: 0 <= i < |lines| && p(lines[i]);
    assert DefinedIn(lines[1..], key) <==> exists i :: 0 <= i < |lines[1..]| && p(lines[1..][i]);
  }

  /** The keys are those of `data` and those some line defines. */
  lemma {:induction false} OsReleaseFromKeys(lines: seq<string>, data: map<string, string>)
    requires OsReleaseFrom(lines, data).Ok?
    ensures forall k :: k in OsReleaseFrom(lines, data).value <==> k in data || DefinedIn(lines, k)
    decreases |lines|
  {
    if |lines| > 0 {
      var next := Update(data, lines[0]);
      assert OsReleaseFrom(lines, data) == OsReleaseFrom(lines[1..], next);
      OsReleaseFromKeys(lines[1..], next);
      forall k ensures k in next <==> k in data || Defines(lines[0], k) {
      }
      forall k ensures DefinedIn(lines, k) <==> Defines(lines[0], k) || DefinedIn(lines[1..], k) {
        DefinedInCons(lines, k);
      }
    }
  }

  /** Dropping the first line keeps "no definition after `i`". */
  lemma LastDefinitionTail(lines: seq<string>, i: int, k: string)
    requires |lines| > 0 && 0 <= i && LastDefinition(lines, i, k)
    ensures LastDefinition(lines[1..], i - 1, k)
  {
    forall j | 0 <= j < |lines[1..]| && i - 1 < j ensures !Defines(lines[1..][j], k) {
      assert lines[1..][j] == lines[j + 1];
    }
  }

  /** A key no line defines keeps its value from `data`. */
  lemma {:induction false} OsReleaseFromKeeps(lines: seq<string>, data: map<string, string>, k: string)
    requires OsReleaseFrom(lines, data).Ok? && k in data
    requires LastDefinition(lines, -1, k)
    ensures k in OsReleaseFrom(lines, data).value && OsReleaseFrom(lines, data).value[k] == data[k]
    decreases |lines|
  {
    if |lines| > 0 {
      assert !Defines(lines[0], k);
      LastDefinitionTail(lines, 0, k);
      OsReleaseFromKeeps(lines[1..], Update(data, lines[0]), k);
    }
  }

  /** The value of a key is the cleaned value of the last line that
      defines it: later lines overwrite earlier ones. */
  lemma {:induction false} OsReleaseFromLastWins(lines: seq<string>, data: map<string, string>, i: int, k: string)
    requires OsReleaseFrom(lines, data).Ok?
    requires 0 <= i < |lines| && Defines(lines[i], k) && LastDefinition(lines, i, k)
    ensures k in OsReleaseFrom(lines, data).value
    ensures OsReleaseFrom(lines, data).value[k] == Entry(lines[i]).value.1
    decreases |lines|
  {
    var next := Update(data, lines[0]);
    assert OsReleaseFrom(lines, data) == OsReleaseFrom(lines[1..], next);
    LastDefinitionTail(lines, i, k);
    if i == 0 {
      OsReleaseFromKeeps(lines[1..], next, k);
    } else {
      assert lines[1..][i - 1] == lines[i];
      OsReleaseFromLastWins(lines[1..], next, i - 1, k);
    }
  }

  /** `parse_os_release` over the lines of a file: it fails exactly when a
      line has no `=`; otherwise its keys are those some line gives a
      non-empty value, each mapped to the cleaned value of its last such
      line. */
  lemma OsReleaseMeaning(lines: seq<string>)
    ensures var r := OsReleaseFrom(lines, map[]);
      && (r.Err? <==> exists i :: 0 <= i < |lines| && !Contains(lines[i], "="))
      && (r.Err? ==> r.error == ValueError(UnpackError))
      && (r.Ok? ==> forall k :: k in r.value <==> exists i :: 0 <= i < |lines| && Defines(lines[i], k))
      && (r.Ok? ==> forall i, k :: 0 <= i < |lines| && Defines(lines[i], k) && LastDefinition(lines, i, k) ==>
            k in r.value && r.value[k] == Entry(lines[i]).value.1)
  {
    var empty: map<string, string> := map[];
    var r := OsReleaseFrom(lines, empty);
    OsReleaseFromFails(lines, empty);
    if r.Ok? {
      OsReleaseFromKeys(lines, empty);
      forall k ensures k in r.value <==> exists i :: 0 <= i < |lines| && Defines(lines[i], k) {
        assert k !in empty;
      }
      forall i, k | 0 <= i < |lines| && Defines(lines[i], k) && LastDefinition(lines, i, k)
        ensures k in r.value && r.value[k] == Entry(lines[i]).value.1
      {
        OsReleaseFromLastWins(lines, empty, i, k);
      }
    }
  }

  /** `parse_os_release`: loads the release file and fills the dictionary
      line by line. */
  method ParseOsRelease(fs: FileSystem, releaseFile: Option<string>) returns (r: Result<map<string, string>>)
    ensures var loaded := fs.Load(OsReleasePath(releaseFile));
      r == if loaded.Ok? then OsRelease(loaded.value) else Err(loaded.error)
  {
    var path := if releaseFile.None? || releaseFile.value == "" then DefaultOsRelease else releaseFile.value;
    var loaded := fs.Load(path);
    if loaded.Err? {
      return Err(loaded.error);
    }
    var lines := SplitLines(loaded.value);
    var data: map<string, string> := map[];
    for i := 0 to |lines|
      invariant OsReleaseFrom(lines[i..], data) == OsRelease(loaded.value)
    {
      assert lines[i..][1..] == lines[i + 1..];
      var kv := SplitOnce(lines[i], "=");
      if |kv| < 2 {
        return Err(ValueError(UnpackError));
      }
      if kv[1] != "" {
        data := data[kv[0] := CleanValue(kv[1])];
      }
    }
    assert lines[|lines|..] == [];
    return Ok(data);
  }

  // ---------------------------------------------------------------------
  // The version, release and series of `get_platform_info`

  /** A `.<digit> LTS` point release starts at position `k`. */
  predicate PointReleaseAt(s: string, k: nat)
  {
    k + 6 <= |s| && s[k] == '.' && IsDigit(s[k + 1]) && s[k + 2..k + 6] == " LTS"
  }

  /** `re.sub(r"\.\d LTS", " LTS", s)`: scanning left to right, each
      non-overlapping point release loses its `.<digit>`. */
  function NormalizeLts(s: string): (r: string)
    ensures |r| <= |s|
    decreases |s|
  {
    if |s| == 0 then ""
    else if PointReleaseAt(s, 0) then " LTS" + NormalizeLts(s[6..])
    else [s[0]] + NormalizeLts(s[1..])
  }

  lemma PointReleaseShift(c: char, s: string, k: nat)
    ensures PointReleaseAt([c] + s, k + 1) <==> PointReleaseAt(s, k)
  {
    if k + 6 <= |s| {
      assert ([c] + s)[k + 3..k + 7] == s[k + 2..k + 6];
    }
  }

  /** A string with no point release is left as it is. */
  lemma {:induction false} NormalizeLtsNoMatch(s: string)
    requires forall k: nat :: !PointReleaseAt(s, k)
    ensures NormalizeLts(s) == s
    decreases |s|
  {
    if |s| > 0 {
      forall k: nat ensures !PointReleaseAt(s[1..], k) {
        assert s == [s[0]] + s[1..];
        PointReleaseShift(s[0], s[1..], k);
      }
      NormalizeLtsNoMatch(s[1..]);
      assert s == [s[0]] + s[1..];
    }
  }

  /** Text in which no point release starts is copied unchanged. */
  lemma {:induction false} NormalizeLtsPrefix(x: string, y: string)
    requires forall k: nat :: k < |x| ==> !PointReleaseAt(x + y, k)
    ensures NormalizeLts(x + y) == x + NormalizeLts(y)
    decreases |x|
  {
    if |x| > 0 {
      var s := x + y;
      var t := x[1..] + y;
      assert s == [s[0]] + t && s[1..] == t && s[0] == x[0];
      assert !PointReleaseAt(s, 0);
      assert NormalizeLts(s) == [s[0]] + NormalizeLts(t);
      forall k: nat | k < |x[1..]| ensures !PointReleaseAt(t, k) {
        PointReleaseShift(s[0], t, k);
      }
      NormalizeLtsPrefix(x[1..], y);
      assert [x[0]] + (x[1..] + NormalizeLts(y)) == x + NormalizeLts(y) by {
        assert x == [x[0]] + x[1..];
      }
    } else {
      assert x + y == y;
    }
  }

  /** Digits and dots: the shape of a release number. */
  predicate IsReleaseNumber(s: string)
  {
    forall i :: 0 <= i < |s| ==> IsHweChar(s[i])
  }

  /** The normalisation turns `<release>.<d> LTS<tail>` into
      `<release> LTS<tail>` when the tail has no point release of its
      own: `20.04.1 LTS (Focal Fossa)` becomes `20.04 LTS (Focal Fossa)`. */
  lemma NormalizeLtsStripsPointRelease(release: string, d: char, tail: string)
    requires IsReleaseNumber(release) && IsDigit(d)
    requires forall k: nat :: !PointReleaseAt(tail, k)
    ensures NormalizeLts(release + ("." + ([d] + (" LTS" + tail)))) == release + (" LTS" + tail)
  {
    var y := "." + ([d] + (" LTS" + tail));
    var s := release + y;
    forall k: nat | k < |release| ensures !PointReleaseAt(s, k) {
      if k + 6 <= |s| {
        if k + 2 < |release| {
          assert s[k + 2] == release[k + 2];
          assert s[k + 2..k + 6][0] == s[k + 2];
        } else if k + 1 == |release| {
          assert s[k + 1] == '.';
        } else {
          assert s[k + 2] == '.';
          assert s[k + 2..k + 6][0] == s[k + 2];
        }
      }
    }
    NormalizeLtsPrefix(release, y);
    assert PointReleaseAt(y, 0);
    assert y[6..] == tail;
    NormalizeLtsNoMatch(tail);
  }

  /** `(?P<release>\d+\.\d+) (LTS )?\((?P<series>\w+).*` matched at the
      start of a version string. */
  datatype OsVersion = OsVersion(major: string, minor: string, lts: bool, series: string)

  predicate WellFormedOsVersion(m: OsVersion)
  {
    Digits(m.major) && Digits(m.minor) && |m.series| > 0 && forall i :: 0 <= i < |m.series| ==> IsWordChar(m.series[i])
  }

  function ReleaseOf(m: OsVersion): string
  {
    m.major + "." + m.minor
  }

  function LtsText(lts: bool): string
  {
    if lts then "LTS " else ""
  }

  /** The text the pattern consumes, followed by `tail`. */
  function OsVersionThen(m: OsVersion, tail: string): string
  {
    m.major + ("." + (m.minor + (" " + (LtsText(m.lts) + ("(" + (m.series + tail))))))
  }

  /** `\((\w+)` at the start of `r4`: the series and what `.*` is left
      with. */
  function MatchParenSeries(r4: string): Option<(string, string)>
  {
    if |r4| == 0 || r4[0] != '(' then None
    else
      var (series, tail) := TakeWhile(r4[1..], IsWordChar);
      if |series| == 0 then None else Some((series, tail))
  }

  lemma MatchParenSeriesSound(r4: string)
    requires MatchParenSeries(r4).Some?
    ensures var (series, tail) := MatchParenSeries(r4).value;
      && |series| > 0 && (forall i :: 0 <= i < |series| ==> IsWordChar(series[i]))
      && (|tail| > 0 ==> !IsWordChar(tail[0]))
      && r4 == "(" + (series + tail)
  {
    assert r4 == "(" + r4[1..];
  }

  lemma MatchParenSeriesOf(series: string, tail: string)
    requires |series| > 0 && forall i :: 0 <= i < |series| ==> IsWordChar(series[i])
    requires |tail| > 0 ==> !IsWordChar(tail[0])
    ensures MatchParenSeries("(" + (series + tail)) == Some((series, tail))
  {
    assert ("(" + (series + tail))[1..] == series + tail;
    TakeWhileOf(series, tail, IsWordChar);
  }

  /** `(LTS )?` before the parenthesis: the group is taken only when
      `LTS (` follows, since otherwise the `\(` cannot match after it. */
  function MatchLts(r3: string): (bool, string)
  {
    if |r3| >= 5 && r3[..5] == "LTS (" then (true, r3[4..]) else (false, r3)
  }

  lemma MatchLtsSound(r3: string)
    ensures var (lts, r4) := MatchLts(r3);
      r3 == LtsText(lts) + r4 && (lts ==> |r4| > 0 && r4[0] == '(')
  {
    if |r3| >= 5 && r3[..5] == "LTS (" {
      assert r3 == r3[..4] + r3[4..];
      assert r3[..4] == "LTS ";
    }
  }

  lemma MatchLtsOf(lts: bool, r4: string)
    requires |r4| > 0 && r4[0] == '('
    ensures MatchLts(LtsText(lts) + r4) == (lts, r4)
  {
    var r3 := LtsText(lts) + r4;
    if lts {
      assert r3[..5] == "LTS (";
      assert r3[4..] == r4;
    } else {
      assert r3 == r4;
      assert r3[0] == '(';
    }
  }

  /** `(\d+) (LTS )?\((\w+)` after the release's point. */
  function MatchMinorSeries(r: string): Option<(string, bool, string, string)>
  {
    match MatchDigitsThen(r, IsBlank)
    case None => None
    case Some((b, _, r2)) =>
      var (lts, r4) := MatchLts(r2);
      match MatchParenSeries(r4)
      case None => None
      case Some((series, tail)) => Some((b, lts, series, tail))
  }

  lemma MatchMinorSeriesSound(r: string)
    requires MatchMinorSeries(r).Some?
    ensures var (b, lts, series, tail) := MatchMinorSeries(r).value;
      && Digits(b) && |series| > 0 && (forall i :: 0 <= i < |series| ==> IsWordChar(series[i]))
      && (|tail| > 0 ==> !IsWordChar(tail[0]))
      && r == b + (" " + (LtsText(lts) + ("(" + (series + tail))))
  {
    MatchDigitsThenSound(r, IsBlank);
    var (b, _, r2) := MatchDigitsThen(r, IsBlank).value;
    var (lts, r4) := MatchLts(r2);
    MatchLtsSound(r2);
    MatchParenSeriesSound(r4);
  }

  /** `re.match(REGEX_OS_RELEASE_VERSION, version)`, with what `.*` is left
      with after the series. */
  function MatchOsVersionTail(s: string): Option<(OsVersion, string)>
  {
    match MatchDigitsThen(s, IsDot)
    case None => None
    case Some((a, _, r1)) =>
      match MatchMinorSeries(r1)
      case None => None
      case Some((b, lts, series, tail)) => Some((OsVersion(a, b, lts, series), tail))
  }

  /** `re.match(REGEX_OS_RELEASE_VERSION, version)`. */
  function MatchOsVersion(s: string): Option<OsVersion>
  {
    match MatchOsVersionTail(s)
    case None => None
    case Some((m, _)) => Some(m)
  }

  /** A match consumes a well-formed release and series; what follows the
      series does not start with a word character. */
  lemma MatchOsVersionSound(s: string)
    requires MatchOsVersionTail(s).Some?
    ensures var (m, tail) := MatchOsVersionTail(s).value;
      && WellFormedOsVersion(m) && (|tail| > 0 ==> !IsWordChar(tail[0]))
      && s == OsVersionThen(m, tail)
  {
    MatchDigitsThenSound(s, IsDot);
    var (a, _, r1) := MatchDigitsThen(s, IsDot).value;
    MatchMinorSeriesSound(r1);
  }

  /** Every well-formed release and series is matched, whatever non-word
      text follows the series. */
  lemma MatchOsVersionOf(m: OsVersion, tail: string)
    requires WellFormedOsVersion(m)
    requires |tail| > 0 ==> !IsWordChar(tail[0])
    ensures MatchOsVersionTail(OsVersionThen(m, tail)) == Some((m, tail))
    ensures MatchOsVersion(OsVersionThen(m, tail)) == Some(m)
  {
    var r4 := "(" + (m.series + tail);
    var r3 := LtsText(m.lts) + r4;
    var r1 := m.minor + (" " + r3);
    MatchDigitsThenOf(m.major, '.', r1, IsDot);
    assert MatchMinorSeries(r1) == Some((m.minor, m.lts, m.series, tail)) by {
      MatchDigitsThenOf(m.minor, ' ', r3, IsBlank);
      MatchLtsOf(m.lts, r4);
      MatchParenSeriesOf(m.series, tail);
    }
  }

  /** The keys of the platform dictionary. */
  const PlatformKeys: set<string> := {"distribution", "type", "version", "release", "series", "kernel", "arch"}

  /** The part of `get_platform_info` this model covers, given the parsed
      os-release dictionary, the kernel info and the dpkg architecture. */
  function PlatformInfo(osRelease: Result<map<string, string>>, kernel: Result<KernelInfo>, arch: string): Result<map<string, string>>
  {
    if osRelease.Err? then Err(osRelease.error)
    else
      var os := osRelease.value;
      var distribution := if "NAME" in os then os["NAME"] else "UNKNOWN";
      if "VERSION" !in os then Err(KeyError("VERSION"))
      else
        var version := NormalizeLts(os["VERSION"]);
        match MatchOsVersion(version)
        case None => Err(RuntimeError(CouldNotParseOsReleaseVersion(os["VERSION"], version)))
        case Some(m) =>
          if kernel.Err? then Err(kernel.error)
          else Ok(PlatformDict(distribution, version, m, kernel.value.unameRelease, arch))
  }

  /** The dictionary `get_platform_info` returns once every part is known. */
  function PlatformDict(distribution: string, version: string, m: OsVersion, kernel: string, arch: string): (d: map<string, string>)
    ensures d.Keys == PlatformKeys
    ensures d["distribution"] == distribution && d["type"] == "Linux" && d["version"] == version
    ensures d["release"] == ReleaseOf(m) && d["series"] == Lower(m.series)
    ensures d["kernel"] == kernel && d["arch"] == arch
  {
    map[
      "distribution" := distribution,
      "type" := "Linux",
      "version" := version,
      "release" := ReleaseOf(m),
      "series" := Lower(m.series),
      "kernel" := kernel,
      "arch" := arch]
  }

  /** The failures of `get_platform_info`, in the order the code meets
      them: a missing VERSION, a version the pattern rejects, then the
      kernel's own failure. */
  lemma PlatformInfoErrors(os: map<string, string>, kernel: Result<KernelInfo>, arch: string)
    ensures var r := PlatformInfo(Ok(os), kernel, arch);
      && ("VERSION" !in os ==> r == Err(KeyError("VERSION")))
      && ("VERSION" in os && MatchOsVersion(NormalizeLts(os["VERSION"])).None? ==>
            r == Err(RuntimeError(CouldNotParseOsReleaseVersion(os["VERSION"], NormalizeLts(os["VERSION"])))))
      && ("VERSION" in os && MatchOsVersion(NormalizeLts(os["VERSION"])).Some? && kernel.Err? ==>
            r == Err(kernel.error))
      && (r.Ok? <==> "VERSION" in os && MatchOsVersion(NormalizeLts(os["VERSION"])).Some? && kernel.Ok?)
  {
  }

  /** The platform dictionary: its keys, the fixed `type`, the `UNKNOWN`
      distribution default, the normalised version, the release number
      and the lower-cased series. */
  lemma PlatformInfoFields(os: map<string, string>, kernel: KernelInfo, arch: string)
    requires "VERSION" in os && MatchOsVersion(NormalizeLts(os["VERSION"])).Some?
    ensures var r := PlatformInfo(Ok(os), Ok(kernel), arch);
      var m := MatchOsVersion(NormalizeLts(os["VERSION"])).value;
      && r.Ok?
      && r.value.Keys == PlatformKeys
      && r.value["type"] == "Linux"
      && r.value["distribution"] == (if "NAME" in os then os["NAME"] else "UNKNOWN")
      && r.value["version"] == NormalizeLts(os["VERSION"])
      && r.value["release"] == ReleaseOf(m) && Digits(m.major) && Digits(m.minor)
      && r.value["series"] == Lower(m.series)
      && r.value["kernel"] == kernel.unameRelease
      && r.value["arch"] == arch
  {
    var version := NormalizeLts(os["VERSION"]);
    var m := MatchOsVersion(version).value;
    var distribution := if "NAME" in os then os["NAME"] else "UNKNOWN";
    assert PlatformInfo(Ok(os), Ok(kernel), arch) == Ok(PlatformDict(distribution, version, m, kernel.unameRelease, arch));
    MatchOsVersionSound(version);
  }

  /** An LTS point release: `20.04.1 LTS (Focal Fossa)` gives release
      `20.04`, series `focal`, version `20.04 LTS (Focal Fossa)`. */
  lemma PlatformInfoPointRelease(major: string, minor: string, d: char, series: string, rest: string,
                                 os: map<string, string>, kernel: KernelInfo, arch: string)
    requires Digits(major) && Digits(minor) && IsDigit(d)
    requires |series| > 0 && forall i :: 0 <= i < |series| ==> IsWordChar(series[i])
    requires |rest| > 0 ==> !IsWordChar(rest[0])
    requires forall k: nat :: !PointReleaseAt(" (" + (series + rest), k)
    requires "VERSION" in os && os["VERSION"] == (major + "." + minor) + ("." + ([d] + (" LTS" + (" (" + (series + rest)))))
    ensures var r := PlatformInfo(Ok(os), Ok(kernel), arch);
      && r.Ok?
      && r.value["release"] == major + "." + minor
      && r.value["series"] == Lower(series)
      && r.value["version"] == (major + "." + minor) + (" LTS" + (" (" + (series + rest)))
  {
    var release := major + "." + minor;
    var tail := " (" + (series + rest);
    assert IsReleaseNumber(release) by {
      forall i | 0 <= i < |release| ensures IsHweChar(release[i]) {
        if i < |major| {
          assert release[i] == major[i];
        } else if i > |major| {
          assert release[i] == minor[i - |major| - 1];
        }
      }
    }
    NormalizeLtsStripsPointRelease(release, d, tail);
    var m := OsVersion(major, minor, true, series);
    assert release + (" LTS" + tail) == OsVersionThen(m, rest);
    MatchOsVersionOf(m, rest);
    PlatformInfoFields(os, kernel, arch);
  }

  /** `get_platform_info` reading its two files: os-release through
      `parse_os_release` and the kernel signature through `get_kernel_info`.
      The `uname` release and the architecture are inputs. */
  method GetPlatformInfo(fs: FileSystem, uname: string, arch: string) returns (r: Result<map<string, string>>)
    ensures var loaded := fs.Load(DefaultOsRelease);
      r == PlatformInfo(if loaded.Ok? then OsRelease(loaded.value) else Err(loaded.error),
                        KernelInfoOf(uname, fs.Load(ProcVersionSignature)), arch)
  {
    var os := ParseOsRelease(fs, None);
    var kernel := KernelInfoOf(uname, fs.Load(ProcVersionSignature));
    r := PlatformInfo(os, kernel, arch);
  }

  // ---------------------------------------------------------------------
  // should_reboot

  /** The lines of the reboot-required package list, as a set. */
  function PkgLines(content: string): set<string>
  {
    set l | l in Split(content, "\n")
  }

  /** Some pattern finds some listed package; `search(pattern, name)`
      stands for `re.search`. */
  predicate PatternHit(names: set<string>, patterns: set<string>, search: (string, string) -> bool)
  {
    exists n, p :: n in names && p in patterns && search(p, n)
  }

  /** `should_reboot`: the marker file decides alone unless filters are
      given and the package list exists; then a filter must hit. */
  function RebootNeeded(files: map<string, File>, pkgs: Option<set<string>>, patterns: Option<set<string>>,
                        search: (string, string) -> bool): bool
  {
    if RebootFileCheckPath !in files then false
    else if pkgs.None? && patterns.None? then true
    else if RebootPkgsFilePath !in files then true
    else
      var names := PkgLines(files[RebootPkgsFilePath].content);
      (pkgs.Some? && pkgs.value * names != {}) || (patterns.Some? && PatternHit(names, patterns.value, search))
  }

  method ShouldReboot(fs: FileSystem, pkgs: Option<set<string>>, patterns: Option<set<string>>,
                      search: (string, string) -> bool) returns (r: bool)
    ensures r == RebootNeeded(fs.files, pkgs, patterns, search)
  {
    if !fs.Exists(RebootFileCheckPath) {
      return false;
    }
    if pkgs.None? && patterns.None? {
      return true;
    }
    var loaded := fs.Load(RebootPkgsFilePath);
    if loaded.Err? {
      return true;
    }
    var names := PkgLines(loaded.value);
    if pkgs.Some? && pkgs.value * names != {} {
      return true;
    }
    if patterns.Some? {
      var todo := names;
      while todo != {}
        invariant todo <= names
        invariant forall n, p :: n in names - todo && p in patterns.value ==> !search(p, n)
        decreases todo
      {
        var n :| n in todo;
        var left := patterns.value;
        while left != {}
          invariant left <= patterns.value
          invariant forall p :: p in patterns.value - left ==> !search(p, n)
          decreases left
        {
          var p :| p in left;
          if search(p, n) {
            return true;
          }
          left := left - {p};
        }
        todo := todo - {n};
      }
    }
    return false;
  }

  /** Without the marker file no filter can ask for a reboot. */
  lemma NoMarkerNoReboot(files: map<string, File>, pkgs: Option<set<string>>, patterns: Option<set<string>>,
                         search: (string, string) -> bool)
    requires RebootFileCheckPath !in files
    ensures !RebootNeeded(files, pkgs, patterns, search)
  {
  }

  /** With the package list present, the two filters act as an OR. */
  lemma FiltersActAsOr(files: map<string, File>, pkgs: set<string>, patterns: set<string>,
                       search: (string, string) -> bool)
    requires RebootPkgsFilePath in files
    ensures RebootNeeded(files, Some(pkgs), Some(patterns), search) <==>
      RebootNeeded(files, Some(pkgs), None, search) || RebootNeeded(files, None, Some(patterns), search)
  {
  }

  /** Asking about more packages can only turn the answer to true. */
  lemma MorePackagesMoreReboots(files: map<string, File>, pkgs: set<string>, more: set<string>,
                                patterns: Option<set<string>>, search: (string, string) -> bool)
    requires pkgs <= more
    requires RebootNeeded(files, Some(pkgs), patterns, search)
    ensures RebootNeeded(files, Some(more), patterns, search)
  {
    if RebootPkgsFilePath in files {
      var names := PkgLines(files[RebootPkgsFilePath].content);
      if pkgs * names != {} {
        var x :| x in pkgs * names;
        assert x in more * names;
      }
    }
  }

  // ---------------------------------------------------------------------
  // get_machine_id

  predicate IsNewline(c: char)
  {
    c == '\n'
  }

  /** The `machineTokenInfo.machineId` of a non-empty machine token, when
      it is non-empty. */
  function TokenMachineId(token: map<string, map<string, string>>): (r: Option<string>)
    ensures r.Some? ==> r.value != "" && "machineTokenInfo" in token && "machineId" in token["machineTokenInfo"]
                        && r.value == token["machineTokenInfo"]["machineId"]
    ensures r.None? <==> "machineTokenInfo" !in token || "machineId" !in token["machineTokenInfo"]
                         || token["machineTokenInfo"]["machineId"] == ""
  {
    if |token| > 0 && "machineTokenInfo" in token && "machineId" in token["machineTokenInfo"]
       && token["machineTokenInfo"]["machineId"] != ""
    then Some(token["machineTokenInfo"]["machineId"])
    else None
  }

  /** A file's content with its trailing newlines removed. */
  function StoredId(f: File): (r: string)
    ensures |r| > 0 ==> !IsNewline(r[|r| - 1])
  {
    TrimEnd(f.content, IsNewline)
  }

  /** The first of `paths` that exists and holds a non-empty id. */
  function StoredMachineId(files: map<string, File>, paths: seq<string>): (r: Option<string>)
    ensures r.Some? ==> r.value != "" && !IsNewline(r.value[|r.value| - 1])
    ensures r.Some? ==> exists i :: 0 <= i < |paths| && paths[i] in files && r.value == StoredId(files[paths[i]])
    ensures r.None? <==> forall i :: 0 <= i < |paths| && paths[i] in files ==> StoredId(files[paths[i]]) == ""
  {
    if |paths| == 0 then None
    else if paths[0] in files && StoredId(files[paths[0]]) != "" then Some(StoredId(files[paths[0]]))
    else
      var r := StoredMachineId(files, paths[1..]);
      assert forall i :: 1 <= i < |paths| ==> paths[i] == paths[1..][i - 1];
      r
  }

  /** The first path that exists and holds a non-empty id supplies the
      stored id, whatever the later paths hold. */
  lemma {:induction false} StoredMachineIdFirst(files: map<string, File>, paths: seq<string>, i: nat)
    requires i < |paths| && paths[i] in files && StoredId(files[paths[i]]) != ""
    requires forall j :: 0 <= j < i && paths[j] in files ==> StoredId(files[paths[j]]) == ""
    ensures StoredMachineId(files, paths) == Some(StoredId(files[paths[i]]))
    decreases i
  {
    if i > 0 {
      assert forall j :: 0 <= j < i - 1 ==> paths[1..][j] == paths[j + 1];
      StoredMachineIdFirst(files, paths[1..], i - 1);
    }
  }

  function MachineIdPaths(fallback: string): seq<string>
  {
    [EtcMachineId, DbusMachineId, fallback]
  }

  /** The id `get_machine_id` returns: the token's, the first stored one,
      or the freshly generated `newId`. */
  function MachineId(files: map<string, File>, token: map<string, map<string, string>>, fallback: string, newId: string): string
  {
    match TokenMachineId(token)
    case Some(id) => id
    case None =>
      match StoredMachineId(files, MachineIdPaths(fallback))
      case Some(id) => id
      case None => newId
  }

  /** The files after `get_machine_id`: only a generated id is written. */
  function MachineIdFiles(files: map<string, File>, token: map<string, map<string, string>>, fallback: string, newId: string): map<string, File>
  {
    if TokenMachineId(token).None? && StoredMachineId(files, MachineIdPaths(fallback)).None?
    then files[fallback := File(newId, DefaultMode)]
    else files
  }

  /** `get_machine_id`; `newId` stands for `str(uuid.uuid4())` and
      `fallback` for the data directory's `machine-id`. */
  method GetMachineId(fs: FileSystem, token: map<string, map<string, string>>, fallback: string, newId: string)
    returns (id: string)
    modifies fs
    ensures id == MachineId(old(fs.files), token, fallback, newId)
    ensures fs.files == MachineIdFiles(old(fs.files), token, fallback, newId)
    ensures fs.commands == old(fs.commands)
  {
    var tokenId := TokenMachineId(token);
    if tokenId.Some? {
      return tokenId.value;
    }
    var paths := MachineIdPaths(fallback);
    for i := 0 to |paths|
      invariant StoredMachineId(fs.files, paths[i..]) == StoredMachineId(fs.files, paths)
      invariant fs.files == old(fs.files) && fs.commands == old(fs.commands)
    {
      assert paths[i..][1..] == paths[i + 1..];
      if fs.Exists(paths[i]) {
        var content := fs.Load(paths[i]);
        var stored := TrimEnd(content.value, IsNewline);
        if stored != "" {
          return stored;
        }
      }
    }
    assert paths[|paths|..] == [];
    fs.Write(fallback, newId, DefaultMode);
    id := newId;
  }

  /** Writing a non-empty id to one of the paths, when none held one,
      makes that the id found. */
  lemma {:induction false} StoredAfterWrite(files: map<string, File>, paths: seq<string>, path: string, f: File)
    requires StoredMachineId(files, paths).None?
    requires path in paths && StoredId(f) != ""
    ensures StoredMachineId(files[path := f], paths) == Some(StoredId(f))
  {
    if paths[0] != path {
      assert path in paths[1..] by {
        var i :| 0 <= i < |paths| && paths[i] == path;
        assert paths[1..][i - 1] == path;
      }
      StoredAfterWrite(files, paths[1..], path, f);
    }
  }

  /** The id is stable: once generated and written, the next call returns
      the same id whatever new one it is offered. */
  lemma MachineIdStable(files: map<string, File>, token: map<string, map<string, string>>, fallback: string,
                        newId: string, nextId: string)
    requires newId != "" && !IsNewline(newId[|newId| - 1])
    ensures var after := MachineIdFiles(files, token, fallback, newId);
      MachineId(after, token, fallback, nextId) == MachineId(files, token, fallback, newId)
  {
    if TokenMachineId(token).None? && StoredMachineId(files, MachineIdPaths(fallback)).None? {
      var f := File(newId, DefaultMode);
      assert StoredId(f) == newId;
      StoredAfterWrite(files, MachineIdPaths(fallback), fallback, f);
    }
  }
}
