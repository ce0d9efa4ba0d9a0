/** Device keys, nicknames and display labels (crates/linsight-core/src/hardware.rs). */
module DeviceLabels {
  import opened Prelude

  const KEY_MAX_LEN: nat := 140
  const NICKNAME_MAX_CHARS: nat := 64
  const ALLOWED_SCHEMES: seq<string> := [
    "pci", "nvml", "nvme", "net", "cpu", "system", "block", "hwmon", "fs", "amdgpu", "zram", "i915", "plugin"]

  datatype Category = Gpu | Storage | Network | Cpu | Other

  datatype Device = Device(
    key: string, category: Category, model: string, vendor: Option<string>, location: Option<string>,
    pluginId: string, pluginDeviceId: string, sensorIds: seq<string>)

  // ---- keys -------------------------------------------------------------------------------------

  /** Where the first ':' is, or the length of the text. */
  function ColonAt(s: string): (i: nat)
    ensures i <= |s|
    ensures i < |s| ==> s[i] == ':'
    ensures forall j | 0 <= j < i :: s[j] != ':'
  {
    if s == "" then 0 else if s[0] == ':' then 0 else 1 + ColonAt(s[1..])
  }

  /** `key.scheme()`: the text up to the first ':'. */
  function Scheme(key: string): string { key[..ColonAt(key)] }

  /** What follows the first ':', or everything if there is none. */
  function Suffix(key: string): string
  {
    var i := ColonAt(key);
    if i < |key| then key[i + 1..] else key
  }

  predicate IsKeyChar(c: char)
  {
    'a' <= c <= 'z' || 'A' <= c <= 'Z' || '0' <= c <= '9' || c == '_' || c == ':' || c == '.' || c == '-'
  }

  datatype KeyError = Empty | TooLong(len: nat) | NoScheme | UnknownScheme(s: string) | EmptyPayload(s: string) | BadChar(c: char)
  datatype KeyResult = GoodKey(key: string) | BadKey(error: KeyError)

  function FirstBadChar(s: string): (r: Option<char>)
    ensures r.None? <==> forall i | 0 <= i < |s| :: IsKeyChar(s[i])
    ensures r.Some? ==> r.value in s && !IsKeyChar(r.value)
  {
    if s == "" then None else if !IsKeyChar(s[0]) then Some(s[0]) else FirstBadChar(s[1..])
  }

  function TryNew(s: string): KeyResult
  {
    if s == "" then BadKey(Empty)
    else if |s| > KEY_MAX_LEN then BadKey(TooLong(|s|))
    else if ColonAt(s) == |s| then BadKey(NoScheme)
    else if Scheme(s) !in ALLOWED_SCHEMES then BadKey(UnknownScheme(Scheme(s)))
    else if Suffix(s) == "" then BadKey(EmptyPayload(Scheme(s)))
    else match FirstBadChar(Suffix(s))
      case Some(c) => BadKey(BadChar(c))
      case None => GoodKey(s)
  }

  ghost predicate HasScheme(s: string) { ColonAt(s) < |s| }

  /** A key with a scheme is its scheme, a colon and its suffix, so the pair identifies it. */
  lemma KeyIsSchemeAndSuffix(a: string, b: string)
    requires HasScheme(a) && HasScheme(b) && Scheme(a) == Scheme(b) && Suffix(a) == Suffix(b)
    ensures a == b
  {
    SchemeAndSuffix(a);
    SchemeAndSuffix(b);
  }

  /** An ASCII letter or digit, '_', ':', '.' or '-', by its code. */
  ghost predicate KeyCode(n: int)
  {
    97 <= n <= 122 || 65 <= n <= 90 || 48 <= n <= 57 || n == 95 || n == 58 || n == 46 || n == 45
  }

  /** `s` is an allowed scheme, a colon and a payload of allowed characters. */
  ghost predicate Splits(s: string, scheme: string, payload: string)
  {
    && s == scheme + ":" + payload && scheme in ALLOWED_SCHEMES
    && payload != "" && forall i | 0 <= i < |payload| :: KeyCode(payload[i] as int)
  }

  lemma SplitsAtFirstColon(s: string, scheme: string, payload: string)
    requires Splits(s, scheme, payload)
    ensures HasScheme(s) && Scheme(s) == scheme && Suffix(s) == payload
  {
    assert ':' !in scheme;
    assert s[|scheme|] == ':' && forall j | 0 <= j < |scheme| :: s[j] == scheme[j];
    assert ColonAt(s) == |scheme|;
  }

  /** Exactly the texts of this form, and of bounded length, are keys. */
  lemma AcceptedKeys(s: string)
    ensures TryNew(s).GoodKey? <==> |s| <= 140 && exists scheme, payload :: Splits(s, scheme, payload)
    ensures TryNew(s).GoodKey? ==> TryNew(s).key == s && HasScheme(s)
  {
    if TryNew(s).GoodKey? { GoodKeySplits(s); }
    if scheme, payload :| Splits(s, scheme, payload) { SplitsAtFirstColon(s, scheme, payload); }
  }

  lemma GoodKeySplits(s: string)
    requires TryNew(s).GoodKey?
    ensures HasScheme(s) && Splits(s, Scheme(s), Suffix(s))
  {
    SchemeAndSuffix(s);
    AllowedCodes(Suffix(s));
  }

  lemma SchemeAndSuffix(s: string)
    requires HasScheme(s)
    ensures s == Scheme(s) + ":" + Suffix(s)
  {
    var i := ColonAt(s);
    assert s[..i] + [s[i]] + s[i + 1..] == s;
  }

  lemma AllowedCodes(payload: string)
    requires FirstBadChar(payload).None?
    ensures forall i | 0 <= i < |payload| :: KeyCode(payload[i] as int)
  {
    forall i | 0 <= i < |payload| ensures KeyCode(payload[i] as int) { assert IsKeyChar(payload[i]); }
  }

  // ---- nicknames --------------------------------------------------------------------------------

  predicate IsWhitespace(c: char)
  {
    var n := c as int;
    || 0x9 <= n <= 0xD || n == 0x20 || n == 0x85 || n == 0xA0 || n == 0x1680 || 0x2000 <= n <= 0x200A
    || n == 0x2028 || n == 0x2029 || n == 0x202F || n == 0x205F || n == 0x3000
  }

  predicate IsControl(c: char) { c as int <= 0x1F || 0x7F <= c as int <= 0x9F }

  function TrimStart(s: string): string { if s != "" && IsWhitespace(s[0]) then TrimStart(s[1..]) else s }
  function TrimEnd(s: string): string { if s != "" && IsWhitespace(s[|s| - 1]) then TrimEnd(s[..|s| - 1]) else s }
  function Trim(s: string): string { TrimEnd(TrimStart(s)) }

  datatype NicknameResult = Accepted(value: Option<string>) | NicknameTooLong(len: nat) | ControlChar(c: char)

  function FirstControl(s: string): (r: Option<char>)
    ensures r.None? <==> forall i | 0 <= i < |s| :: !IsControl(s[i])
  {
    if s == "" then None else if IsControl(s[0]) then Some(s[0]) else FirstControl(s[1..])
  }

  function ValidateNickname(input: string): NicknameResult
  {
    var trimmed := Trim(input);
    if trimmed == "" then Accepted(None)
    else if |trimmed| > NICKNAME_MAX_CHARS then NicknameTooLong(|trimmed|)
    else match FirstControl(trimmed)
      case Some(c) => ControlChar(c)
      case None => Accepted(Some(trimmed))
  }

  lemma {:induction false} TrimEndKeepsFront(s: string)
    ensures TrimEnd(s) <= s
    ensures TrimEnd(s) != "" ==> !IsWhitespace(TrimEnd(s)[|TrimEnd(s)| - 1])
  {
    if s != "" && IsWhitespace(s[|s| - 1]) { TrimEndKeepsFront(s[..|s| - 1]); }
  }

  lemma {:induction false} TrimStartStops(s: string)
    ensures TrimStart(s) != "" ==> !IsWhitespace(TrimStart(s)[0])
  {
    if s != "" && IsWhitespace(s[0]) { TrimStartStops(s[1..]); }
  }

  /** An accepted nickname is short, printable, without blanks at either end, and is accepted unchanged if
      submitted again. */
  lemma AcceptedNicknames(input: string)
    ensures var r := ValidateNickname(input);
            r.Accepted? && r.value.Some? ==>
              && var n := r.value.value;
              && 0 < |n| <= 64 && !IsWhitespace(n[0]) && !IsWhitespace(n[|n| - 1])
              && (forall i | 0 <= i < |n| :: !IsControl(n[i]))
              && ValidateNickname(n) == r
  {
    TrimStartStops(input);
    TrimEndKeepsFront(TrimStart(input));
    var n := Trim(input);
    if n != "" {
      assert TrimStart(n) == n && TrimEnd(n) == n;
    }
  }

  ghost predicate Blanks(s: string) { forall i | 0 <= i < |s| :: IsWhitespace(s[i]) }

  lemma {:induction false} TrimStartDropsBlanks(a: string, s: string)
    requires Blanks(a) && (s == "" || !IsWhitespace(s[0]))
    ensures TrimStart(a + s) == s
  {
    if a == "" {
      assert a + s == s;
    } else {
      assert (a + s)[1..] == a[1..] + s;
      TrimStartDropsBlanks(a[1..], s);
    }
  }

  lemma {:induction false} TrimEndDropsBlanks(s: string, b: string)
    requires Blanks(b) && (s == "" || !IsWhitespace(s[|s| - 1]))
    ensures TrimEnd(s + b) == s
  {
    if b == "" {
      assert s + b == s;
    } else {
      assert (s + b)[..|s + b| - 1] == s + b[..|b| - 1];
      TrimEndDropsBlanks(s, b[..|b| - 1]);
    }
  }

  lemma {:induction false} TrimCutsBlanks(a: string, n: string, b: string)
    requires Blanks(a) && Blanks(b) && (n == "" || (!IsWhitespace(n[0]) && !IsWhitespace(n[|n| - 1])))
    ensures Trim(a + n + b) == n
  {
    if n == "" {
      assert a + n + b == (a + b) + "" && Blanks(a + b);
      TrimStartDropsBlanks(a + b, "");
    } else {
      assert a + n + b == a + (n + b);
      TrimStartDropsBlanks(a, n + b);
      TrimEndDropsBlanks(n, b);
    }
  }

  /** The answer to any submitted nickname, read off what stands between the blanks at its ends: nothing clears
      the nickname, more than 64 characters are too many, a control character is refused, and everything else is
      taken as it stands. */
  lemma {:induction false} NicknameExactly(a: string, n: string, b: string)
    requires Blanks(a) && Blanks(b) && (n == "" || (!IsWhitespace(n[0]) && !IsWhitespace(n[|n| - 1])))
    ensures var r := ValidateNickname(a + n + b);
            && (n == "" ==> r == Accepted(None))
            && (|n| > 64 ==> r == NicknameTooLong(|n|))
            && (0 < |n| <= 64 ==>
                  if exists i :: 0 <= i < |n| && IsControl(n[i])
                  then r.ControlChar? && r.c in n && IsControl(r.c)
                  else r == Accepted(Some(n)))
  {
    TrimCutsBlanks(a, n, b);
    FirstControlIsOne(n);
  }

  lemma {:induction false} FirstControlIsOne(s: string)
    ensures FirstControl(s).Some? ==> FirstControl(s).value in s && IsControl(FirstControl(s).value)
  {
    if s == "" {
    } else if !IsControl(s[0]) {
      FirstControlIsOne(s[1..]);
    }
  }

  // ---- labels -----------------------------------------------------------------------------------

  /** Some other un-nicknamed device has the same model. */
  predicate NeedsSuffix(target: Device, all: seq<Device>, nicknames: map<string, string>)
  {
    exists i :: 0 <= i < |all| && all[i].key != target.key && all[i].model == target.model && all[i].key !in nicknames
  }

  function ComputeDeviceLabel(target: Device, all: seq<Device>, nicknames: map<string, string>): string
  {
    if target.key in nicknames then nicknames[target.key]
    else if NeedsSuffix(target, all, nicknames) then target.model + " (" + Suffix(target.key) + ")"
    else target.model
  }

  /** Another device without a nickname is of the same model. */
  ghost predicate HasTwin(target: Device, all: seq<Device>, nicknames: map<string, string>)
  {
    exists d :: d in all && d.key != target.key && d.model == target.model && d.key !in nicknames
  }

  /** What a label says: the nickname if there is one; the model alone for a device without a twin; otherwise the
      model and, in brackets, what follows the first colon of the key, which is everything in a key without one. */
  lemma LabelMeaning(target: Device, all: seq<Device>, nicknames: map<string, string>, scheme: string, payload: string)
    ensures var shown := ComputeDeviceLabel(target, all, nicknames);
            && (target.key in nicknames ==> shown == nicknames[target.key])
            && (target.key !in nicknames && !HasTwin(target, all, nicknames) ==> shown == target.model)
            && (target.key !in nicknames && HasTwin(target, all, nicknames) ==>
                  && (target.key == scheme + ":" + payload && ':' !in scheme ==> shown == target.model + " (" + payload + ")")
                  && (':' !in target.key ==> shown == target.model + " (" + target.key + ")"))
  {
    if NeedsSuffix(target, all, nicknames) {
      var i :| 0 <= i < |all| && all[i].key != target.key && all[i].model == target.model && all[i].key !in nicknames;
      assert all[i] in all;
    }
    if HasTwin(target, all, nicknames) {
      var d :| d in all && d.key != target.key && d.model == target.model && d.key !in nicknames;
      var i :| 0 <= i < |all| && all[i] == d;
      assert NeedsSuffix(target, all, nicknames) by { assert all[i].key != target.key; }
    }
    if target.key == scheme + ":" + payload && ':' !in scheme { SuffixIsPayload(target.key, scheme, payload); }
  }

  lemma SuffixIsPayload(key: string, scheme: string, payload: string)
    requires key == scheme + ":" + payload && ':' !in scheme
    ensures Suffix(key) == payload
  {
    assert key[|scheme|] == ':' && forall j | 0 <= j < |scheme| :: key[j] == scheme[j];
    assert ColonAt(key) == |scheme|;
  }

  ghost predicate SameDevices(all: seq<Device>, other: seq<Device>) { forall d :: d in all <==> d in other }

  /** A label depends on which devices there are, not on their order or repetition. */
  lemma LabelIgnoresOrder(target: Device, all: seq<Device>, other: seq<Device>, nicknames: map<string, string>)
    requires SameDevices(all, other)
    ensures ComputeDeviceLabel(target, all, nicknames) == ComputeDeviceLabel(target, other, nicknames)
  {
    if NeedsSuffix(target, all, nicknames) { SuffixIgnoresOrder(target, all, other, nicknames); }
    if NeedsSuffix(target, other, nicknames) { SuffixIgnoresOrder(target, other, all, nicknames); }
  }

  lemma SuffixIgnoresOrder(target: Device, all: seq<Device>, other: seq<Device>, nicknames: map<string, string>)
    requires SameDevices(all, other) && NeedsSuffix(target, all, nicknames)
    ensures NeedsSuffix(target, other, nicknames)
  {
    var i :| 0 <= i < |all| && all[i].key != target.key && all[i].model == target.model && all[i].key !in nicknames;
    assert all[i] in other;
    var j :| 0 <= j < |other| && other[j] == all[i];
    assert other[j].key != target.key;
  }

  /** Two un-nicknamed devices of one model are labelled alike exactly when their keys agree after the
      scheme; within one scheme that never happens. */
  lemma LabelsTellApart(a: Device, b: Device, all: seq<Device>, nicknames: map<string, string>)
    requires a in all && b in all && a.key != b.key && a.model == b.model
    requires a.key !in nicknames && b.key !in nicknames && HasScheme(a.key) && HasScheme(b.key)
    ensures ComputeDeviceLabel(a, all, nicknames) == ComputeDeviceLabel(b, all, nicknames) <==> Suffix(a.key) == Suffix(b.key)
    ensures Scheme(a.key) == Scheme(b.key) ==>
              ComputeDeviceLabel(a, all, nicknames) != ComputeDeviceLabel(b, all, nicknames)
  {
    var i :| 0 <= i < |all| && all[i] == a;
    var j :| 0 <= j < |all| && all[j] == b;
    assert NeedsSuffix(a, all, nicknames) by { assert all[j].key != a.key; }
    assert NeedsSuffix(b, all, nicknames) by { assert all[i].key != b.key; }
    SameFrame(a.model, Suffix(a.key), Suffix(b.key));
    if Scheme(a.key) == Scheme(b.key) && Suffix(a.key) == Suffix(b.key) { KeyIsSchemeAndSuffix(a.key, b.key); }
  }

  lemma SameFrame(model: string, s: string, t: string)
    ensures model + " (" + s + ")" == model + " (" + t + ")" <==> s == t
  {
    var a, b := model + " (" + s + ")", model + " (" + t + ")";
    if a == b {
      assert a[|model| + 2..|a| - 1] == s;
      assert b[|model| + 2..|b| - 1] == t;
    }
  }
}
