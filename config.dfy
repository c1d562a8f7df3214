/** The stored configuration: its three enums and their derived order, the
    validation of a config file, the token check and update, the file
    paths, the metadata fallback, the update-check threshold, the commit
    labels, and the two replies of the OAuth device flow (RFC 8628,
    sections 3.2 and 3.5). File contents, JSON decoding, the clock and HTTP
    are inputs. */
module Config {
  import opened Text

  /** `SORTING`, in declaration order. */
  datatype Sorting = LastUpdated | Alphabetical

  /** `PROTOCOL`, in declaration order. */
  datatype Protocol = SSH | HTTPS

  /** `COLOR`, in declaration order. */
  datatype Color = Normal | Red | Green | Yellow | Blue | Magenta | Cyan | White | Gray

  /** The position of a variant, which `derive(PartialOrd, Ord)` compares. */
  function SortingRank(s: Sorting): nat {
    match s
    case LastUpdated => 0
    case Alphabetical => 1
  }

  function ProtocolRank(p: Protocol): nat {
    match p
    case SSH => 0
    case HTTPS => 1
  }

  function ColorRank(c: Color): nat {
    match c
    case Normal => 0
    case Red => 1
    case Green => 2
    case Yellow => 3
    case Blue => 4
    case Magenta => 5
    case Cyan => 6
    case White => 7
    case Gray => 8
  }

  /** The derived order is the declaration order, and different variants
      have different positions. */
  lemma RanksOrder(a: Color, b: Color, s: Sorting, t: Sorting, p: Protocol, q: Protocol)
    ensures SortingRank(LastUpdated) < SortingRank(Alphabetical)
    ensures ProtocolRank(SSH) < ProtocolRank(HTTPS)
    ensures ColorRank(Normal) < ColorRank(Red) < ColorRank(Green) < ColorRank(Yellow) < ColorRank(Blue)
            < ColorRank(Magenta) < ColorRank(Cyan) < ColorRank(White) < ColorRank(Gray)
    ensures ColorRank(a) == ColorRank(b) <==> a == b
    ensures SortingRank(s) == SortingRank(t) <==> s == t
    ensures ProtocolRank(p) == ProtocolRank(q) <==> p == q
  {
  }

  /** Every value lies between the first and the last variant of its enum. */
  lemma InRange(s: Sorting, p: Protocol, c: Color)
    ensures SortingRank(LastUpdated) <= SortingRank(s) <= SortingRank(Alphabetical)
    ensures ProtocolRank(SSH) <= ProtocolRank(p) <= ProtocolRank(HTTPS)
    ensures ColorRank(Normal) <= ColorRank(c) <= ColorRank(Gray)
  {
  }

  datatype Config = Config(username: string, token: string, sort: Sorting, protocol: Protocol, color: Color, fancy: bool)

  /** `validate_config_file`: `contents` is the result of reading the file and
      `parsed` the result of decoding it as a config. The guards run in the
      source's order; the range guards and the `fancy` guard never fire. */
  function ValidateConfigFile(contents: Option<string>, parsed: Option<Config>): (valid: bool)
    ensures valid <==> contents.Some? && contents.value != [] && parsed.Some? && parsed.value.username != []
  {
    if contents.None? then false
    else if |contents.value| == 0 then false
    else if parsed.None? then false
    else
      var c := parsed.value;
      InRange(c.sort, c.protocol, c.color);
      if |c.username| == 0 then false
      else if SortingRank(c.sort) < SortingRank(LastUpdated) || SortingRank(c.sort) > SortingRank(Alphabetical) then false
      else if ProtocolRank(c.protocol) < ProtocolRank(SSH) || ProtocolRank(c.protocol) > ProtocolRank(HTTPS) then false
      else if ColorRank(c.color) < ColorRank(Normal) || ColorRank(c.color) > ColorRank(Gray) then false
      else if c.fancy != true && c.fancy != false then false
      else true
  }

  /** `check_token`: the file must exist and validate, and then the token
      read from it must be non-empty. */
  function CheckToken(fileExists: bool, contents: Option<string>, parsed: Option<Config>): (ok: bool)
    ensures ok <==> fileExists && ValidateConfigFile(contents, parsed) && parsed.value.token != []
  {
    if !fileExists || !ValidateConfigFile(contents, parsed) then false
    else |parsed.value.token| != 0
  }

  /** A stored token is accepted exactly when the file is there, decodes,
      and holds a user name and a token. */
  lemma CheckTokenIff(fileExists: bool, contents: Option<string>, parsed: Option<Config>)
    ensures CheckToken(fileExists, contents, parsed) <==>
            fileExists && contents.Some? && contents.value != [] && parsed.Some?
            && parsed.value.username != [] && parsed.value.token != []
  {
  }

  /** `update_token`: the record rebuilt with the new token. */
  function UpdateToken(config: Config, token: string): (r: Config)
    ensures r == config.(token := token)
  {
    Config(config.username, token, config.sort, config.protocol, config.color, config.fancy)
  }

  /** Only the token changes: the latest update wins, and storing the same
      token changes nothing, so the file stays valid exactly when it was. */
  lemma UpdateTokenOnly(config: Config, a: string, b: string)
    ensures UpdateToken(UpdateToken(config, a), b) == UpdateToken(config, b)
    ensures UpdateToken(config, config.token) == config
    ensures UpdateToken(config, a).username == config.username
    ensures UpdateToken(config, a).token == a
  {
  }

  /** After a login, the token check passes exactly when the user name is
      set and the new token is non-empty. */
  lemma UpdatedTokenChecks(config: Config, token: string, contents: string)
    requires contents != []
    ensures CheckToken(true, Some(contents), Some(UpdateToken(config, token))) <==> config.username != [] && token != []
  {
  }

  /** The directory `handle_config_folder` creates. */
  function ConfigDir(home: string): string {
    home + "/.config/tgh"
  }

  /** `get_config_path`, formatted on its own in the source. */
  function ConfigPath(home: string): string {
    home + "/.config/tgh/config.json"
  }

  /** `get_metadata_path`, formatted on its own in the source. */
  function MetadataPath(home: string): string {
    home + "/.config/tgh/metadata.json"
  }

  /** Both files live in the created directory, under different names. */
  lemma PathsInConfigDir(home: string)
    ensures ConfigPath(home) == ConfigDir(home) + "/config.json"
    ensures MetadataPath(home) == ConfigDir(home) + "/metadata.json"
    ensures ConfigPath(home) != MetadataPath(home)
  {
    assert ConfigPath(home)[|home| + 13] == 'c';
    assert MetadataPath(home)[|home| + 13] == 'm';
  }

  datatype Metadata = Metadata(lastChecked: string)

  /** What `read_metadata` returns and the metadata it saves, if any. */
  datatype MetadataRead = MetadataRead(metadata: Metadata, saved: Option<Metadata>)

  /** `read_metadata`: a file that cannot be read gives the defaults, which
      are also saved; contents that do not decode give the defaults too. */
  function ReadMetadata(contents: Option<string>, parsed: Option<Metadata>, defaults: Metadata): (r: MetadataRead)
    ensures r.saved.Some? <==> contents.None?
    ensures r.saved.Some? ==> r.saved.value == r.metadata == defaults
    ensures r.metadata == defaults || (contents.Some? && parsed == Some(r.metadata))
  {
    match contents
    case None => MetadataRead(defaults, Some(defaults))
    case Some(_) => MetadataRead(match parsed case Some(m) => m case None => defaults, None)
  }

  /** Rust `/` on `i64`: the quotient truncated toward zero. */
  function TruncDiv(a: int, b: nat): int
    requires b > 0
  {
    if a >= 0 then a / b else -((-a) / b)
  }

  /** A truncated quotient reaches `k >= 1` exactly when the dividend reaches `k * b`. */
  lemma TruncDivAtLeast(a: int, b: nat, k: nat)
    requires b > 0 && k >= 1
    ensures TruncDiv(a, b) >= k <==> a >= k * b
  {
    if a >= 0 {
      var q, m := a / b, a % b;
      assert a == q * b + m && 0 <= m < b;
      if q >= k {
        assert q * b >= k * b by { MulMono(k, q, b); }
      } else {
        assert q * b <= (k - 1) * b by { MulMono(q, k - 1, b); }
      }
    }
  }

  lemma MulMono(x: int, y: int, b: nat)
    requires x <= y
    ensures x * b <= y * b
  {
  }

  const NanosPerSecond: nat := 1_000_000_000
  const SecondsPerDay: nat := 86_400

  /** `signed_duration_since(...).num_days()`: whole seconds truncated
      toward zero, then whole days truncated toward zero; instants are in
      nanoseconds. */
  function DaysBetween(now: int, lastChecked: int): int {
    TruncDiv(TruncDiv(now - lastChecked, NanosPerSecond), SecondsPerDay)
  }

  /** `should_check_for_updates` for the current instant and the parsed
      `last_checked`. */
  function ShouldCheckForUpdates(now: int, lastChecked: int): bool {
    DaysBetween(now, lastChecked) >= 1
  }

  /** An update check is due exactly when a full day (86400 seconds) has
      passed; a clock behind the stored instant never makes it due. */
  lemma ShouldCheckIff(now: int, lastChecked: int)
    ensures ShouldCheckForUpdates(now, lastChecked) <==> now - lastChecked >= SecondsPerDay * NanosPerSecond
  {
    TruncDivAtLeast(TruncDiv(now - lastChecked, NanosPerSecond), SecondsPerDay, 1);
    TruncDivAtLeast(now - lastChecked, NanosPerSecond, SecondsPerDay);
  }

  /** A commit label of the Rust menu. */
  datatype CommitLabel = CommitLabel(name: string, emoji: string)

  /** `Display for CommitLabel`. */
  function LabelDisplay(l: CommitLabel): (r: string)
    ensures |r| == |l.emoji| + 1 + |l.name|
  {
    l.emoji + " " + l.name
  }

  /** The emoji, one space and the label, so a label whose emoji holds no
      space can be read back from its display. */
  lemma LabelDisplayParts(l: CommitLabel)
    ensures LabelDisplay(l)[..|l.emoji|] == l.emoji
    ensures LabelDisplay(l)[|l.emoji|] == ' '
    ensures LabelDisplay(l)[|l.emoji| + 1..] == l.name
    ensures ' ' !in l.emoji ==> IndexOf(LabelDisplay(l), ' ') == |l.emoji|
  {
    if ' ' !in l.emoji {
      IndexOfAfter(l.emoji, ' ', l.name);
    }
  }

  /** Two labels with space-free emoji display alike only when they are the same. */
  lemma LabelDisplayInjective(a: CommitLabel, b: CommitLabel)
    requires ' ' !in a.emoji && ' ' !in b.emoji && LabelDisplay(a) == LabelDisplay(b)
    ensures a == b
  {
    LabelDisplayParts(a);
    LabelDisplayParts(b);
  }

  /** `get_labels`. */
  function Labels(): seq<CommitLabel> {
    [ CommitLabel("Initial commit", "\U{1F389}"),
      CommitLabel("Version tag", "\U{1F516}"),
      CommitLabel("New feature", "\U{2728}"),
      CommitLabel("Bug fix", "\U{1F41B}"),
      CommitLabel("Metadata", "\U{1F4C7}"),
      CommitLabel("Documentation", "\U{1F4DA}"),
      CommitLabel("Documenting source code", "\U{1F4A1}"),
      CommitLabel("Performance", "\U{1F407}"),
      CommitLabel("Cosmetic", "\U{1F484}"),
      CommitLabel("Tests", "\U{1F6A8}"),
      CommitLabel("Adding a test", "\U{1F4CB}"),
      CommitLabel("Make a test pass", "\U{2705}"),
      CommitLabel("General update", "\U{1F4C2}"),
      CommitLabel("Improve format/structure", "\U{1F3A8}"),
      CommitLabel("Refactor code", "\U{1F528}"),
      CommitLabel("Removing code/files", "\U{1F525}"),
      CommitLabel("Continuous Integration", "\U{1F49A}"),
      CommitLabel("Security", "\U{1F512}"),
      CommitLabel(" Upgrading dependencies", "\U{2B06}\U{FE0F}"),
      CommitLabel(" Downgrading dependencies", "\U{2B07}\U{FE0F}"),
      CommitLabel("Lint", "\U{1F455}"),
      CommitLabel("Translation", "\U{1F47D}"),
      CommitLabel("Text", "\U{1F4DD}"),
      CommitLabel("Critical hotfix", "\U{1F691}"),
      CommitLabel("Deploying stuff", "\U{1F680}"),
      CommitLabel("Fixing on MacOS", "\U{1F34E}"),
      CommitLabel("Fixing on Linux", "\U{1F427}"),
      CommitLabel("Fixing on Windows", "\U{1F3C1}"),
      CommitLabel("Work in progress", "\U{1F6A7}"),
      CommitLabel("Adding CI build system", "\U{1F477}"),
      CommitLabel("Analytics or tracking code", "\U{1F4C8}"),
      CommitLabel("Removing a dependency", "\U{2796}"),
      CommitLabel("Adding a dependency", "\U{2795}"),
      CommitLabel("Docker", "\U{1F433}"),
      CommitLabel("Configuration files", "\U{1F527}"),
      CommitLabel("Package.json in JS", "\U{1F4E6}"),
      CommitLabel("Merging branches", "\U{1F500}"),
      CommitLabel("Bad code/need improv.", "\U{1F4D1}"),
      CommitLabel(" Reverting changes", "\U{23EE}\U{FE0F}"),
      CommitLabel("Breaking changes", "\U{1F4A5}"),
      CommitLabel("Code review changes", "\U{1F44D}"),
      CommitLabel("Accessibility", "\U{1F9BD}"),
      CommitLabel("Move/rename repository", "\U{1F69A}") ]
  }

  /** 43 labels from "Initial commit" to "Move/rename repository". */
  lemma LabelsEnds()
    ensures |Labels()| == 43
    ensures Labels()[0].name == "Initial commit" && Labels()[42].name == "Move/rename repository"
  {
  }

  /** Three labels begin with a space: the upgrade, downgrade and revert
      labels, so their display has two spaces after the emoji. */
  lemma LabelsLedBySpace()
    ensures Labels()[18].name == " Upgrading dependencies" && Labels()[19].name == " Downgrading dependencies"
    ensures Labels()[38].name == " Reverting changes"
  {
  }

  /** The value of each `key=value` field: the piece after the first
      separator (and before a second one), as `split(sep).collect()[1]`;
      a field without the separator panics. */
  function Values(fields: seq<string>, sep: char): (r: Checked<seq<string>>)
    ensures r.Returns? ==> |r.value| == |fields|
  {
    if fields == [] then Returns([])
    else
      var pieces := Split(fields[0], sep);
      if |pieces| < 2 then Panics
      else
        match Values(fields[1..], sep)
        case Panics => Panics
        case Returns(rest) => Returns([pieces[1]] + rest)
  }

  /** A field whose split has a second piece in front of fields with values. */
  lemma ValuesCons(f: string, rest: seq<string>, sep: char, vs: seq<string>)
    requires |Split(f, sep)| >= 2 && Values(rest, sep) == Returns(vs)
    ensures Values([f] + rest, sep) == Returns([Split(f, sep)[1]] + vs)
  {
    assert ([f] + rest)[1..] == rest;
  }

  /** A field without the separator makes the whole map panic. */
  lemma ValuesPanic(fields: seq<string>, sep: char, k: nat)
    requires k < |fields| && |Split(fields[k], sep)| < 2
    ensures Values(fields, sep) == Panics
    decreases k
  {
    if k > 0 {
      ValuesPanic(fields[1..], sep, k - 1);
    }
  }

  /** Only the two escapes of the verification URL are decoded. */
  function DecodeUrl(s: string): string {
    ReplaceAll(ReplaceAll(s, "%3A", ":"), "%2F", "/")
  }

  /** The device authorization response (section 3.2 of RFC 8628). */
  datatype DeviceCode = DeviceCode(deviceCode: string, expiresIn: nat, interval: nat, userCode: string, loginUrl: string)

  const U64: nat := 0x1_0000_0000_0000_0000

  /** The parsing of the device-code reply in `authenticate`: quotes
      removed, split on `&`, each field's value taken, and the values used
      by position, where a missing field or a non-numeric interval or
      lifetime panics. */
  function ParseDeviceCode(reply: string): (r: Checked<DeviceCode>) {
    var fields := Split(RemoveChar(reply, '"'), '&');
    match Values(fields, '=')
    case Panics => Panics
    case Returns(v) =>
      if |v| < 5 then Panics
      else
        match (ParseUnsigned(v[1], U64), ParseUnsigned(v[2], U64))
        case (Some(e), Some(i)) => Returns(DeviceCode(v[0], e, i, v[3], DecodeUrl(v[4])))
        case _ => Panics
  }

  /** `name=value`. */
  function Field(name: string, value: string): string {
    name + "=" + value
  }

  /** The fields of the reply, in the order the service sends them. */
  function DeviceFields(deviceCode: string, expiresIn: nat, interval: nat, userCode: string, uri: string): seq<string> {
    [Field("device_code", deviceCode)] + ([Field("expires_in", NatToString(expiresIn))]
    + ([Field("interval", NatToString(interval))] + ([Field("user_code", userCode)]
    + [Field("verification_uri", uri)])))
  }

  /** The reply body. */
  function DeviceReply(deviceCode: string, expiresIn: nat, interval: nat, userCode: string, uri: string): string {
    Join(DeviceFields(deviceCode, expiresIn, interval, userCode, uri), "&")
  }

  /** No quote, `&` or `=` in a value. */
  predicate Plain(s: string) {
    '"' !in s && '&' !in s && '=' !in s
  }

  /** One character of a URL with `:` and `/` percent-encoded. */
  function EncodeChar(c: char): string {
    if c == ':' then "%3A" else if c == '/' then "%2F" else [c]
  }

  /** A URL with `:` and `/` percent-encoded and nothing else touched. */
  function EncodeUrl(s: string): string {
    if s == [] then [] else EncodeChar(s[0]) + EncodeUrl(s[1..])
  }

  /** A reply with plain values is read back field by field, and the
      verification URL comes back decoded. */
  lemma DeviceCodeRoundTrip(deviceCode: string, expiresIn: nat, interval: nat, userCode: string, url: string)
    requires Plain(deviceCode) && Plain(userCode) && Plain(url) && '%' !in url
    requires expiresIn < U64 && interval < U64
    ensures ParseDeviceCode(DeviceReply(deviceCode, expiresIn, interval, userCode, EncodeUrl(url)))
            == Returns(DeviceCode(deviceCode, expiresIn, interval, userCode, url))
  {
    var e, i := NatToString(expiresIn), NatToString(interval);
    var uri := EncodeUrl(url);
    NumberPlain(expiresIn);
    NumberPlain(interval);
    EncodePlain(url);
    var vs := [deviceCode] + ([e] + ([i] + ([userCode] + [uri])));
    DeviceFieldsRead(deviceCode, e, i, userCode, uri);
    ParseRendered(expiresIn, U64);
    ParseRendered(interval, U64);
    DecodeEncode(url);
    ParseValues(DeviceReply(deviceCode, expiresIn, interval, userCode, uri), vs, expiresIn, interval);
  }

  /** The parse once the values are known. */
  lemma ParseValues(reply: string, vs: seq<string>, e: nat, i: nat)
    requires Values(Split(RemoveChar(reply, '"'), '&'), '=') == Returns(vs) && |vs| == 5
    requires ParseUnsigned(vs[1], U64) == Some(e) && ParseUnsigned(vs[2], U64) == Some(i)
    ensures ParseDeviceCode(reply) == Returns(DeviceCode(vs[0], e, i, vs[3], DecodeUrl(vs[4])))
  {
  }

  /** The fields of a reply with plain values split back and give the values. */
  lemma DeviceFieldsRead(deviceCode: string, e: string, i: string, userCode: string, uri: string)
    requires Plain(deviceCode) && Plain(e) && Plain(i) && Plain(userCode) && Plain(uri)
    ensures var fields := [Field("device_code", deviceCode)] + ([Field("expires_in", e)]
                          + ([Field("interval", i)] + ([Field("user_code", userCode)] + [Field("verification_uri", uri)])));
            var reply := Join(fields, "&");
            Values(Split(RemoveChar(reply, '"'), '&'), '=') == Returns([deviceCode] + ([e] + ([i] + ([userCode] + [uri]))))
  {
    DeviceKeys();
    var f0, f1, f2, f3, f4 := Field("device_code", deviceCode), Field("expires_in", e),
                              Field("interval", i), Field("user_code", userCode), Field("verification_uri", uri);
    FieldPlain("device_code", deviceCode);
    FieldPlain("expires_in", e);
    FieldPlain("interval", i);
    FieldPlain("user_code", userCode);
    FieldPlain("verification_uri", uri);
    FieldsSplitBack(f0, f1, f2, f3, f4);
    FiveValues(f0, f1, f2, f3, f4, deviceCode, e, i, userCode, uri, '=');
  }

  /** The field names are plain keys. */
  lemma DeviceKeys()
    ensures Key("device_code") && Key("expires_in") && Key("interval") && Key("user_code") && Key("verification_uri")
  {
  }

  /** Lower-case ASCII letters and underscores, as in every key of the replies. */
  predicate Key(s: string) {
    forall k :: 0 <= k < |s| ==> 'a' <= s[k] <= 'z' || s[k] == '_'
  }

  lemma KeyPlain(s: string)
    requires Key(s)
    ensures Plain(s) && TokenPlain(s)
  {
    assert forall c :: c in s ==> 'a' <= c <= 'z' || c == '_';
  }

  /** Five fields without `&` or quotes come back from their join. */
  lemma FieldsSplitBack(f0: string, f1: string, f2: string, f3: string, f4: string)
    requires '&' !in f0 && '&' !in f1 && '&' !in f2 && '&' !in f3 && '&' !in f4
    requires '"' !in f0 && '"' !in f1 && '"' !in f2 && '"' !in f3 && '"' !in f4
    ensures var fields := [f0] + ([f1] + ([f2] + ([f3] + [f4])));
            Split(RemoveChar(Join(fields, "&"), '"'), '&') == fields
  {
    var fields := [f0] + ([f1] + ([f2] + ([f3] + [f4])));
    FiveSeparated(f0, f1, f2, f3, f4);
    JoinNoChar(fields, "&", '"');
    JoinSplit(fields, '&');
  }

  /** Field `f` has `v` as the piece after its first separator. */
  predicate ValueIs(f: string, sep: char, v: string) {
    var pieces := Split(f, sep);
    |pieces| >= 2 && pieces[1] == v
  }

  /** Fields that each have a second piece give those pieces, in order. */
  lemma {:induction false} ValuesOf(fields: seq<string>, sep: char, vs: seq<string>)
    requires |fields| == |vs|
    requires forall k :: 0 <= k < |fields| ==> ValueIs(fields[k], sep, vs[k])
    ensures Values(fields, sep) == Returns(vs)
  {
    if fields != [] {
      ValuesOf(fields[1..], sep, vs[1..]);
      ValuesCons(fields[0], fields[1..], sep, vs[1..]);
      assert [fields[0]] + fields[1..] == fields;
      assert [vs[0]] + vs[1..] == vs;
    }
  }

  /** The values of five fields. */
  lemma FiveValues(f0: string, f1: string, f2: string, f3: string, f4: string,
                   v0: string, v1: string, v2: string, v3: string, v4: string, sep: char)
    requires ValueIs(f0, sep, v0) && ValueIs(f1, sep, v1) && ValueIs(f2, sep, v2)
    requires ValueIs(f3, sep, v3) && ValueIs(f4, sep, v4)
    ensures Values([f0] + ([f1] + ([f2] + ([f3] + [f4]))), sep) == Returns([v0] + ([v1] + ([v2] + ([v3] + [v4]))))
  {
    var fields, vs := [f0, f1, f2, f3, f4], [v0, v1, v2, v3, v4];
    assert fields == [f0] + ([f1] + ([f2] + ([f3] + [f4])));
    assert vs == [v0] + ([v1] + ([v2] + ([v3] + [v4])));
    ValuesOf(fields, sep, vs);
  }

  /** `name=value` for a key and a plain value: no `&` or quote, and its
      value is the second piece. */
  lemma FieldPlain(name: string, value: string)
    requires Key(name) && Plain(value)
    ensures '&' !in Field(name, value) && '"' !in Field(name, value)
    ensures Split(Field(name, value), '=') == [name, value]
    ensures ValueIs(Field(name, value), '=', value)
  {
    KeyPlain(name);
    SplitCons(name, '=', value);
    SplitWithout(value, '=');
  }

  lemma FiveSeparated(f0: string, f1: string, f2: string, f3: string, f4: string)
    requires '&' !in f0 && '&' !in f1 && '&' !in f2 && '&' !in f3 && '&' !in f4
    requires '"' !in f0 && '"' !in f1 && '"' !in f2 && '"' !in f3 && '"' !in f4
    ensures var fields := [f0] + ([f1] + ([f2] + ([f3] + [f4])));
            |fields| == 5 && Separated(fields, '&') && forall k :: 0 <= k < |fields| ==> '"' !in fields[k]
  {
    var fields := [f0] + ([f1] + ([f2] + ([f3] + [f4])));
    assert fields == [f0, f1, f2, f3, f4];
  }

  lemma NumberPlain(n: nat)
    ensures Plain(NatToString(n))
  {
    var s := NatToString(n);
    assert forall k :: 0 <= k < |s| ==> IsDigit(s[k]);
  }

  lemma {:induction false} EncodePlain(s: string)
    requires Plain(s)
    ensures Plain(EncodeUrl(s))
  {
    if s != [] {
      EncodePlain(s[1..]);
      assert s[0] == s[..1][0];
    }
  }

  lemma {:induction false} JoinNoChar(parts: seq<string>, sep: string, c: char)
    requires c !in sep && forall k :: 0 <= k < |parts| ==> c !in parts[k]
    ensures c !in Join(parts, sep)
    ensures RemoveChar(Join(parts, sep), c) == Join(parts, sep)
  {
    if |parts| > 1 {
      JoinNoChar(parts[1..], sep, c);
      JoinCons(parts[0], parts[1..], sep);
    }
  }

  /** Decoding undoes the encoding of a URL without `%`. */
  lemma DecodeEncode(url: string)
    requires '%' !in url
    ensures DecodeUrl(EncodeUrl(url)) == url
  {
    ColonsBack(url);
    SlashesBack(url);
  }

  /** One character with only `/` still encoded. */
  function SlashChar(c: char): string {
    if c == '/' then "%2F" else [c]
  }

  /** The URL with only `/` still encoded. */
  function SlashEncoded(s: string): string {
    if s == [] then [] else SlashChar(s[0]) + SlashEncoded(s[1..])
  }

  lemma {:induction false} ColonsBack(s: string)
    requires '%' !in s
    ensures ReplaceAll(EncodeUrl(s), "%3A", ":") == SlashEncoded(s)
  {
    if s != [] {
      NoPercentTail(s);
      ColonsBack(s[1..]);
      ColonChar(s[0], EncodeUrl(s[1..]));
    }
  }

  lemma NoPercentTail(s: string)
    requires s != [] && '%' !in s
    ensures s[0] != '%' && '%' !in s[1..]
  {
    assert forall k :: 0 <= k < |s[1..]| ==> s[1..][k] == s[k + 1];
  }

  /** The first pass on one encoded character: a `:` comes back, the rest stays. */
  lemma ColonChar(c: char, rest: string)
    requires c != '%'
    ensures ReplaceAll(EncodeChar(c) + rest, "%3A", ":") == SlashChar(c) + ReplaceAll(rest, "%3A", ":")
  {
    if c == ':' {
      ReplaceFront("%3A", rest, "%3A", ":");
    } else if c == '/' {
      SlashPass(rest);
    } else {
      ReplaceSkip(c, rest, "%3A", ":");
    }
  }

  /** An encoded `/` passes the first pass unchanged. */
  lemma SlashPass(rest: string)
    ensures ReplaceAll("%2F" + rest, "%3A", ":") == "%2F" + ReplaceAll(rest, "%3A", ":")
  {
    var r := ReplaceAll(rest, "%3A", ":");
    ReplaceSkip('F', rest, "%3A", ":");
    ReplaceSkip('2', ['F'] + rest, "%3A", ":");
    ReplaceOther(['2'] + (['F'] + rest), "%3A", ":");
    SlashSpelled(rest);
    SlashSpelled(r);
  }

  lemma SlashSpelled(s: string)
    ensures "%2F" + s == ['%'] + (['2'] + (['F'] + s))
  {
  }

  lemma {:induction false} SlashesBack(s: string)
    requires '%' !in s
    ensures ReplaceAll(SlashEncoded(s), "%2F", "/") == s
  {
    if s != [] {
      NoPercentTail(s);
      SlashesBack(s[1..]);
      SlashCharBack(s[0], SlashEncoded(s[1..]));
      assert s == [s[0]] + s[1..];
    }
  }

  lemma SlashCharBack(c: char, rest: string)
    requires c != '%'
    ensures ReplaceAll(SlashChar(c) + rest, "%2F", "/") == [c] + ReplaceAll(rest, "%2F", "/")
  {
    if c == '/' {
      ReplaceFront("%2F", rest, "%2F", "/");
    } else {
      ReplaceSkip(c, rest, "%2F", "/");
    }
  }

  /** A match at the front is replaced. */
  lemma ReplaceFront(p: string, rest: string, pat: string, rep: string)
    requires pat != [] && p == pat
    ensures ReplaceAll(p + rest, pat, rep) == rep + ReplaceAll(rest, pat, rep)
  {
    assert (p + rest)[..|pat|] == pat;
    assert (p + rest)[|pat|..] == rest;
  }

  /** A character that cannot start the pattern is kept. */
  lemma ReplaceSkip(c: char, rest: string, pat: string, rep: string)
    requires pat != [] && c != pat[0]
    ensures ReplaceAll([c] + rest, pat, rep) == [c] + ReplaceAll(rest, pat, rep)
  {
    assert ([c] + rest)[1..] == rest;
    if |[c] + rest| >= |pat| {
      assert ([c] + rest)[..|pat|][0] == c;
    }
  }

  /** `%` followed by `2` does not start `%3A`. */
  lemma ReplaceOther(rest: string, pat: string, rep: string)
    requires pat == "%3A" && rest != [] && rest[0] == '2'
    ensures ReplaceAll(['%'] + rest, pat, rep) == ['%'] + ReplaceAll(rest, pat, rep)
  {
    assert (['%'] + rest)[1..] == rest;
    if |['%'] + rest| >= |pat| {
      assert (['%'] + rest)[..|pat|][1] == '2';
    }
  }

  /** The four characters the token reply handling strips. */
  function Clean(s: string): string {
    RemoveChar(RemoveChar(RemoveChar(RemoveChar(s, '{'), '}'), '"'), '/')
  }

  /** The token in the access-token reply, polled by `authenticate`: `None`
      while the reply does not mention `access_token` (keep polling);
      otherwise the value of the first `key:value` field once braces,
      quotes and slashes are stripped, where any field without `:` panics. */
  function ExtractToken(reply: string): Option<Checked<string>> {
    if !Contains(reply, "access_token") then None
    else
      var fields := Split(Clean(reply), ',');
      match Values(fields, ':')
      case Panics => Some(Panics)
      case Returns(v) => Some(Returns(v[0]))
  }

  /** None of the characters that the token handling strips or splits on. */
  predicate TokenPlain(s: string) {
    '{' !in s && '}' !in s && '"' !in s && '/' !in s && ',' !in s && ':' !in s
  }

  /** A JSON string with nothing to escape. */
  function Quote(s: string): string {
    "\"" + s + "\""
  }

  /** A `"key":"value"` member of a JSON object. */
  function Member(key: string, value: string): string {
    Quote(key) + ":" + Quote(value)
  }

  /** A JSON object of the given members, without whitespace. */
  function JsonObject(members: seq<string>): string {
    "{" + Join(members, ",") + "}"
  }

  /** The JSON reply of a successful poll (section 5.1 of RFC 6749). */
  function TokenReply(token: string, tokenType: string, scope: string): string {
    JsonObject([Member("access_token", token), Member("token_type", tokenType), Member("scope", scope)])
  }

  /** A well-formed reply gives the token back. */
  lemma TokenRoundTrip(token: string, tokenType: string, scope: string)
    requires TokenPlain(token) && TokenPlain(tokenType) && TokenPlain(scope)
    ensures ExtractToken(TokenReply(token, tokenType, scope)) == Some(Returns(token))
  {
    MentionsToken(token, tokenType, scope);
    TokenKeys();
    FirstValue("access_token", token, "token_type", tokenType, "scope", scope);
  }

  lemma TokenKeys()
    ensures Key("access_token") && Key("token_type") && Key("scope")
  {
  }

  /** The reply names the token, so the poll stops. */
  lemma MentionsToken(token: string, tokenType: string, scope: string)
    ensures Contains(TokenReply(token, tokenType, scope), "access_token")
  {
    var rest := "\":" + Quote(token) + "," + Join([Member("token_type", tokenType), Member("scope", scope)], ",") + "}";
    ObjectFront("access_token", token, [Member("token_type", tokenType), Member("scope", scope)]);
    FrontAt("{\"", "access_token", rest);
  }

  /** How a three-member object starts. */
  lemma ObjectFront(key: string, value: string, more: seq<string>)
    requires more != []
    ensures JsonObject([Member(key, value)] + more) == "{\"" + key + ("\":" + Quote(value) + "," + Join(more, ",") + "}")
  {
    JoinCons(Member(key, value), more, ",");
  }

  lemma FrontAt(p: string, pat: string, rest: string)
    ensures At(p + pat + rest, |p|, pat)
  {
    assert (p + pat + rest)[|p|..|p| + |pat|] == pat;
  }

  /** The value of the first member of an object of three plain members,
      once the object has passed the `access_token` test. */
  lemma FirstValue(k0: string, v0: string, k1: string, v1: string, k2: string, v2: string)
    requires Key(k0) && Key(k1) && Key(k2) && TokenPlain(v0) && TokenPlain(v1) && TokenPlain(v2)
    requires Contains(JsonObject([Member(k0, v0), Member(k1, v1), Member(k2, v2)]), "access_token")
    ensures ExtractToken(JsonObject([Member(k0, v0), Member(k1, v1), Member(k2, v2)])) == Some(Returns(v0))
  {
    var reply := JsonObject([Member(k0, v0), Member(k1, v1), Member(k2, v2)]);
    ObjectFields(k0, v0, k1, v1, k2, v2);
    ThreeValues(k0, v0, k1, v1, k2, v2);
    ExtractOf(reply, [k0 + ":" + v0, k1 + ":" + v1, k2 + ":" + v2], [v0, v1, v2]);
  }

  /** The extraction once the fields and their values are known. */
  lemma ExtractOf(reply: string, fields: seq<string>, vs: seq<string>)
    requires Contains(reply, "access_token") && Split(Clean(reply), ',') == fields
    requires Values(fields, ':') == Returns(vs) && vs != []
    ensures ExtractToken(reply) == Some(Returns(vs[0]))
  {
  }

  lemma ObjectFields(k0: string, v0: string, k1: string, v1: string, k2: string, v2: string)
    requires Key(k0) && Key(k1) && Key(k2) && TokenPlain(v0) && TokenPlain(v1) && TokenPlain(v2)
    ensures Split(Clean(JsonObject([Member(k0, v0), Member(k1, v1), Member(k2, v2)])), ',')
            == [k0 + ":" + v0, k1 + ":" + v1, k2 + ":" + v2]
  {
    KeyPlain(k0);
    KeyPlain(k1);
    KeyPlain(k2);
    CleanObject(k0, v0, k1, v1, k2, v2);
    SplitThree(k0 + ":" + v0, k1 + ":" + v1, k2 + ":" + v2, ',');
  }

  lemma ThreeValues(k0: string, v0: string, k1: string, v1: string, k2: string, v2: string)
    requires Key(k0) && Key(k1) && Key(k2) && TokenPlain(v0) && TokenPlain(v1) && TokenPlain(v2)
    ensures Values([k0 + ":" + v0, k1 + ":" + v1, k2 + ":" + v2], ':') == Returns([v0, v1, v2])
  {
    KeyPlain(k0);
    KeyPlain(k1);
    KeyPlain(k2);
    KeyValue(k0, v0);
    KeyValue(k1, v1);
    KeyValue(k2, v2);
    ValuesOf([k0 + ":" + v0, k1 + ":" + v1, k2 + ":" + v2], ':', [v0, v1, v2]);
  }

  /** Stripping an object of plain members leaves `key:value` pieces joined by commas. */
  lemma CleanObject(k0: string, v0: string, k1: string, v1: string, k2: string, v2: string)
    requires TokenPlain(k0) && TokenPlain(k1) && TokenPlain(k2) && TokenPlain(v0) && TokenPlain(v1) && TokenPlain(v2)
    ensures Clean(JsonObject([Member(k0, v0), Member(k1, v1), Member(k2, v2)]))
            == (k0 + ":" + v0) + [','] + ((k1 + ":" + v1) + [','] + (k2 + ":" + v2))
  {
    var m0, m1, m2 := Member(k0, v0), Member(k1, v1), Member(k2, v2);
    CleanMember(k0, v0);
    CleanMember(k1, v1);
    CleanMember(k2, v2);
    JoinThree(m0, m1, m2);
    Marks();
    CleanConcat("{", Join([m0, m1, m2], ","));
    CleanConcat("{" + Join([m0, m1, m2], ","), "}");
    CleanConcat(m0 + ",", m1 + "," + m2);
    CleanConcat(m0, ",");
    CleanConcat(m1 + ",", m2);
    CleanConcat(m1, ",");
    CleanRegroup(Clean(m0), Clean(m1), Clean(m2));
  }

  lemma JoinThree(a: string, b: string, c: string)
    ensures Join([a, b, c], ",") == (a + ",") + (b + "," + c)
  {
    JoinCons(a, [b, c], ",");
    assert [a, b, c] == [a] + [b, c];
    JoinCons(b, [c], ",");
    assert [b, c] == [b] + [c];
  }

  lemma CleanRegroup(a: string, b: string, c: string)
    ensures [] + ((a + ",") + ((b + ",") + c)) + [] == a + [','] + (b + [','] + c)
  {
  }

  /** The five punctuation strings of a compact JSON object. */
  lemma Marks()
    ensures Clean("{") == [] && Clean("}") == [] && Clean("\"") == []
    ensures Clean(":") == ":" && Clean(",") == ","
  {
    CleanPlain(":");
    CleanPlain(",");
  }

  lemma CleanMember(key: string, value: string)
    requires TokenPlain(key) && TokenPlain(value)
    ensures Clean(Member(key, value)) == key + ":" + value
  {
    CleanQuote(key);
    CleanQuote(value);
    CleanConcat(Quote(key) + ":", Quote(value));
    CleanConcat(Quote(key), ":");
    Marks();
  }

  lemma CleanQuote(s: string)
    requires TokenPlain(s)
    ensures Clean(Quote(s)) == s
  {
    CleanConcat("\"" + s, "\"");
    CleanConcat("\"", s);
    CleanPlain(s);
    Marks();
  }

  /** A JSON reply that does not mention the token keeps the poll going. */
  lemma PendingKeepsPolling(reply: string)
    requires !Contains(reply, "access_token")
    ensures ExtractToken(reply) == None
  {
  }

  lemma CleanPlain(s: string)
    requires '{' !in s && '}' !in s && '"' !in s && '/' !in s
    ensures Clean(s) == s
  {
  }

  lemma CleanConcat(a: string, b: string)
    ensures Clean(a + b) == Clean(a) + Clean(b)
  {
    RemoveConcat(a, b, '{');
    RemoveConcat(RemoveChar(a, '{'), RemoveChar(b, '{'), '}');
    var a2, b2 := RemoveChar(RemoveChar(a, '{'), '}'), RemoveChar(RemoveChar(b, '{'), '}');
    RemoveConcat(a2, b2, '"');
    RemoveConcat(RemoveChar(a2, '"'), RemoveChar(b2, '"'), '/');
  }

  lemma {:induction false} RemoveConcat(a: string, b: string, c: char)
    ensures RemoveChar(a + b, c) == RemoveChar(a, c) + RemoveChar(b, c)
  {
    if a != [] {
      RemoveConcat(a[1..], b, c);
      assert (a + b)[1..] == a[1..] + b;
    } else {
      assert a + b == b;
    }
  }

  lemma KeyValue(key: string, value: string)
    requires ':' !in key && ':' !in value
    ensures Split(key + ":" + value, ':') == [key, value]
    ensures ValueIs(key + ":" + value, ':', value)
  {
    SplitCons(key, ':', value);
    SplitWithout(value, ':');
  }
}
