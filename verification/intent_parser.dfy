/**
  The LLM-response side of the intent parser (`agent/intent_parser_llm.py`):
  cutting the JSON object out of the reply, coercing the loosely typed
  object into a `ClusterSpec` with its documented defaults and clamps, and
  composing the user message sent to the model.
 */
module IntentParser {
  import opened Wrappers
  import opened Text
  import opened Json
  import opened Models
  import ProxmoxClient

  // ---------------------------------------------------------------------------
  // Locating the JSON object in the reply
  // ---------------------------------------------------------------------------

  predicate IsBrace(c: char) {
    c == '{' || c == '}'
  }

  predicate NoBraces(s: string) {
    forall i :: 0 <= i < |s| ==> !IsBrace(s[i])
  }

  /** `c` does not occur in `s`. */
  predicate Lacks(s: string, c: char) {
    forall i :: 0 <= i < |s| ==> s[i] != c
  }

  /** `\w` restricted to ASCII: letters, digits and underscore. */
  predicate IsWordChar(c: char) {
    'a' <= c <= 'z' || 'A' <= c <= 'Z' || '0' <= c <= '9' || c == '_'
  }

  /** The end of the run of word characters in `t` starting at `i`. */
  function WordEnd(t: string, i: nat): (r: nat)
    requires i <= |t|
    ensures i <= r <= |t|
    ensures forall j :: i <= j < r ==> IsWordChar(t[j])
    decreases |t| - i
  {
    if i < |t| && IsWordChar(t[i]) then WordEnd(t, i + 1) else i
  }

  /** The end of the run of whitespace in `t` starting at `i`. */
  function SpaceEnd(t: string, i: nat): (r: nat)
    requires i <= |t|
    ensures i <= r <= |t|
    ensures forall j :: i <= j < r ==> IsSpace(t[j])
    decreases |t| - i
  {
    if i < |t| && IsSpace(t[i]) then SpaceEnd(t, i + 1) else i
  }

  /** Where the text resumes after `^```\w*\s*\n?` (the `\s*` already takes
      any newline, so `\n?` matches nothing). */
  function OpeningFenceEnd(t: string): (r: nat)
    requires StartsWith(t, "```")
    ensures 3 <= r <= |t|
    ensures NoBraces(t[..r])
  {
    var w := WordEnd(t, 3);
    var e := SpaceEnd(t, w);
    assert forall j :: 0 <= j < 3 ==> t[j] == "```"[j];
    assert forall j :: 0 <= j < e ==> t[..e][j] == t[j];
    e
  }

  /** `re.sub(r'^```\w*\s*\n?', '', t)` on a text that starts with a fence:
      the fence, its language tag and the whitespace after it go. */
  function DropOpeningFence(t: string): string
    requires StartsWith(t, "```")
  {
    t[OpeningFenceEnd(t)..]
  }

  /** `\n?```\s*$` matches at position `i` of `t`. */
  predicate ClosingFenceAt(t: string, i: nat) {
    || (i + 4 <= |t| && t[i] == '\n' && t[i + 1..i + 4] == "```" && AllSpace(t[i + 4..]))
    || (i + 3 <= |t| && t[i..i + 3] == "```" && AllSpace(t[i + 3..]))
  }

  /** The leftmost position at or after `from` where the closing fence matches. */
  function ClosingFenceFrom(t: string, from: nat): (r: Option<nat>)
    requires from <= |t|
    ensures r.Some? ==> from <= r.value <= |t| && ClosingFenceAt(t, r.value)
    ensures r.Some? ==> forall i :: from <= i < r.value ==> !ClosingFenceAt(t, i)
    ensures r.None? ==> forall i :: from <= i <= |t| ==> !ClosingFenceAt(t, i)
    decreases |t| - from
  {
    if ClosingFenceAt(t, from) then Some(from)
    else if from == |t| then None
    else ClosingFenceFrom(t, from + 1)
  }

  /** `re.sub(r'\n?```\s*$', '', t)`: cut the text at the leftmost closing fence. */
  function DropClosingFence(t: string): (r: string)
    ensures |r| <= |t| && r == t[..|r|]
    ensures NoBraces(t[|r|..])
  {
    match ClosingFenceFrom(t, 0)
    case None => t
    case Some(i) =>
      var gone := t[i..];
      forall j | 0 <= j < |gone|
        ensures !IsBrace(gone[j])
      {
        if i + 4 <= |t| && t[i] == '\n' && t[i + 1..i + 4] == "```" && AllSpace(t[i + 4..]) {
          if j == 0 {
          } else if j < 4 {
            assert gone[j] == t[i + 1..i + 4][j - 1];
          } else {
            assert gone[j] == t[i + 4..][j - 4];
          }
        } else {
          if j < 3 {
            assert gone[j] == t[i..i + 3][j];
          } else {
            assert gone[j] == t[i + 3..][j - 3];
          }
        }
      }
      t[..i]
  }

  /** The text `_extract_json_from_response` searches: stripped, and with a
      Markdown code fence removed when the stripped text starts with one. */
  function Unfenced(text: string): string {
    var t := Strip(text);
    if StartsWith(t, "```") then Strip(DropClosingFence(DropOpeningFence(t))) else t
  }

  datatype ExtractError = NoJsonObject

  /** `text[text.find('{') : text.rfind('}') + 1]`, failing when either brace
      is missing. When the last '}' precedes the first '{' Python's slice is
      empty. */
  function BraceSlice(text: string): Result<string, ExtractError> {
    var start := FindChar(text, '{');
    var end := RFindChar(text, '}');
    if start == -1 || end == -1 then Err(NoJsonObject)
    else if start <= end then Ok(text[start..end + 1])
    else Ok("")
  }

  /** Extraction fails exactly when a brace kind is missing; otherwise, when
      the first '{' precedes the last '}', the candidate runs from that '{'
      to that '}' and no '{' comes before it nor '}' after it. */
  lemma BraceSliceShape(text: string)
    ensures BraceSlice(text).Err? <==> Lacks(text, '{') || Lacks(text, '}')
    ensures BraceSlice(text).Ok? && FindChar(text, '{') <= RFindChar(text, '}') ==>
      var r := BraceSlice(text).value;
      && |r| >= 2 && r[0] == '{' && r[|r| - 1] == '}'
      && r == text[FindChar(text, '{')..RFindChar(text, '}') + 1]
      && Lacks(text[..FindChar(text, '{')], '{')
      && Lacks(text[RFindChar(text, '}') + 1..], '}')
    ensures BraceSlice(text).Ok? && FindChar(text, '{') > RFindChar(text, '}') ==>
      BraceSlice(text).value == ""
  {
  }

  /** `_extract_json_from_response` up to (not including) `json.loads`. */
  function ExtractJson(text: string): Result<string, ExtractError> {
    BraceSlice(Unfenced(text))
  }

  lemma {:induction false} ConcatLacks(p: string, m: string, q: string, c: char)
    ensures Lacks(p + m + q, c) <==> Lacks(p, c) && Lacks(m, c) && Lacks(q, c)
  {
    var s := p + m + q;
    if Lacks(s, c) {
      assert forall i :: 0 <= i < |p| ==> s[i] == p[i];
      assert forall i :: 0 <= i < |m| ==> s[|p| + i] == m[i];
      assert forall i :: 0 <= i < |q| ==> s[|p| + |m| + i] == q[i];
    }
    if Lacks(p, c) && Lacks(m, c) && Lacks(q, c) {
      forall i | 0 <= i < |s|
        ensures s[i] != c
      {
        if i < |p| {
          assert s[i] == p[i];
        } else if i < |p| + |m| {
          assert s[i] == m[i - |p|];
        } else {
          assert s[i] == q[i - |p| - |m|];
        }
      }
    }
  }

  lemma {:induction false} FindCharShift(p: string, m: string, q: string, c: char)
    requires Lacks(p, c) && Lacks(q, c) && !Lacks(m, c)
    ensures FindChar(p + m + q, c) == |p| + FindChar(m, c)
  {
    var s := p + m + q;
    var k := FindChar(m, c);
    assert s[|p| + k] == c;
    forall j | 0 <= j < |p| + k
      ensures s[j] != c
    {
      if j < |p| {
        assert s[j] == p[j];
      } else {
        assert s[j] == m[j - |p|];
      }
    }
    FindCharIs(s, c, |p| + k);
  }

  lemma {:induction false} RFindCharShift(p: string, m: string, q: string, c: char)
    requires Lacks(p, c) && Lacks(q, c) && !Lacks(m, c)
    ensures RFindChar(p + m + q, c) == |p| + RFindChar(m, c)
  {
    var s := p + m + q;
    var k := RFindChar(m, c);
    assert s[|p| + k] == c;
    forall j | |p| + k < j < |s|
      ensures s[j] != c
    {
      if j < |p| + |m| {
        assert s[j] == m[j - |p|];
      } else {
        assert s[j] == q[j - |p| - |m|];
      }
    }
    RFindCharIs(s, c, |p| + k);
  }

  lemma {:induction false} NoBracesLacks(s: string)
    requires NoBraces(s)
    ensures Lacks(s, '{') && Lacks(s, '}')
  {
  }

  /** Text cut out of `m` is the same text cut out of `p + m + q`, `|p|` further on. */
  lemma {:induction false} SliceShift(p: string, m: string, q: string, a: nat, b: nat)
    ensures SameCut(p + m + q, m, |p|, a, b)
  {
    if a <= b < |m| {
      var s := p + m + q;
      var cut := s[|p| + a..|p| + b + 1];
      var part := m[a..b + 1];
      forall k | 0 <= k < |part|
        ensures cut[k] == part[k]
      {
        assert s[|p| + a + k] == m[a + k];
      }
      assert cut == part;
    }
  }

  /** The cut `BraceSlice` makes, given where the first '{' and last '}' are. */
  lemma BraceSliceAt(s: string, a: int, b: int)
    requires FindChar(s, '{') == a >= 0 && RFindChar(s, '}') == b >= 0
    ensures a <= b ==> BraceSlice(s) == Ok(s[a..b + 1])
    ensures a > b ==> BraceSlice(s) == Ok("")
  {
  }

  /** When the object part has both braces, wrapping it in brace-free text
      shifts both positions by the same amount and cuts out the same text. */
  lemma {:induction false} BraceFreeWrappingFound(p: string, m: string, q: string)
    requires NoBraces(p) && NoBraces(q)
    requires !Lacks(m, '{') && !Lacks(m, '}')
    ensures BraceSlice(p + m + q) == BraceSlice(m)
  {
    WrappedBraces(p, m, q);
    var a := FindChar(m, '{');
    var b := RFindChar(m, '}');
    SliceShift(p, m, q, a, b);
    ShiftedBraceSlice(p + m + q, m, |p|, a, b);
  }

  /** Where the braces of `m` land once brace-free text surrounds it. */
  lemma {:induction false} WrappedBraces(p: string, m: string, q: string)
    requires NoBraces(p) && NoBraces(q)
    requires !Lacks(m, '{') && !Lacks(m, '}')
    ensures FindChar(m, '{') >= 0 && RFindChar(m, '}') >= 0
    ensures FindChar(p + m + q, '{') == |p| + FindChar(m, '{')
    ensures RFindChar(p + m + q, '}') == |p| + RFindChar(m, '}')
  {
    NoBracesLacks(p);
    NoBracesLacks(q);
    FindCharShift(p, m, q, '{');
    RFindCharShift(p, m, q, '}');
  }

  /** Cutting `m` from `a` to `b` gives the same text as cutting `s` from
      `off + a` to `off + b`. */
  predicate SameCut(s: string, m: string, off: nat, a: nat, b: nat) {
    a <= b < |m| && off + b < |s| ==> s[off + a..off + b + 1] == m[a..b + 1]
  }

  /** Both brace positions moved by the same offset, over the same text,
      give the same cut. */
  lemma ShiftedBraceSlice(s: string, m: string, off: nat, a: int, b: int)
    requires FindChar(m, '{') == a >= 0 && RFindChar(m, '}') == b >= 0
    requires FindChar(s, '{') == off + a && RFindChar(s, '}') == off + b
    requires SameCut(s, m, off, a, b)
    ensures BraceSlice(s) == BraceSlice(m)
  {
    BraceSliceAt(m, a, b);
    BraceSliceAt(s, off + a, off + b);
  }

  /** Brace-free text around the object never changes what is cut out. */
  lemma {:induction false} BraceFreeWrapping(p: string, m: string, q: string)
    requires NoBraces(p) && NoBraces(q)
    ensures BraceSlice(p + m + q) == BraceSlice(m)
  {
    if !Lacks(m, '{') && !Lacks(m, '}') {
      BraceFreeWrappingFound(p, m, q);
    } else {
      var s := p + m + q;
      NoBracesLacks(p);
      NoBracesLacks(q);
      ConcatLacks(p, m, q, '{');
      ConcatLacks(p, m, q, '}');
      BraceSliceShape(s);
      BraceSliceShape(m);
      assert BraceSlice(s).Err? && BraceSlice(m).Err?;
    }
  }

  lemma {:induction false} SpacesHaveNoBraces(s: string)
    requires AllSpace(s)
    ensures NoBraces(s)
  {
  }

  lemma {:induction false} StripKeepsSlice(s: string)
    ensures BraceSlice(Strip(s)) == BraceSlice(s)
  {
    var lead, trail := StripSplit(s);
    SpacesHaveNoBraces(lead);
    SpacesHaveNoBraces(trail);
    BraceFreeWrapping(lead, Strip(s), trail);
  }

  /** Removing both fences and the whitespace inside them removes no brace. */
  lemma {:induction false} DropFencesKeepsSlice(t: string)
    requires StartsWith(t, "```")
    ensures BraceSlice(Strip(DropClosingFence(DropOpeningFence(t)))) == BraceSlice(t)
  {
    var e := OpeningFenceEnd(t);
    var o := DropOpeningFence(t);
    assert t == t[..e] + o + "";
    BraceFreeWrapping(t[..e], o, "");
    var c := DropClosingFence(o);
    assert o == "" + c + o[|c|..];
    BraceFreeWrapping("", c, o[|c|..]);
    StripKeepsSlice(c);
  }

  /** Stripping whitespace and Markdown fences never changes the extracted
      object: the fence patterns match no braces. */
  lemma {:induction false} FencesDoNotMatter(text: string)
    ensures ExtractJson(text) == BraceSlice(text)
  {
    StripKeepsSlice(text);
    if StartsWith(Strip(text), "```") {
      DropFencesKeepsSlice(Strip(text));
    }
  }

  // ---------------------------------------------------------------------------
  // Coercing the JSON object into a ClusterSpec
  // ---------------------------------------------------------------------------

  datatype SpecError =
    | NotAnObject                   // `data.get` on a non-dict raises AttributeError
    | NotAnInteger(key: string)     // `int(value)` raises TypeError / ValueError
    | UnsupportedValue(key: string) // a list or dict where the model stores text
    | Unhashable(key: string)       // `version_map.get(list_or_dict)` raises TypeError
    | NotIterable(key: string)      // `list(value)` on a number or boolean

  /** `int(data.get(key, default)) == n`: a present value converts to `n`,
      and an absent key gives the default. */
  predicate ReadsInt(f: seq<(string, Value)>, key: string, default: int, n: int) {
    match Lookup(f, key)
    case Some(v) => ToInt(v) == Some(n)
    case None => n == default
  }

  /** `max(int(data.get(key, default)), floor) == n`. */
  predicate ReadsIntAtLeast(f: seq<(string, Value)>, key: string, default: int, floor: int, n: int) {
    match Lookup(f, key)
    case Some(v) => ToInt(v).Some? && n == Max(ToInt(v).value, floor)
    case None => n == Max(default, floor)
  }

  /** `int(data.get(key, default))`, raising on a value `int` rejects. */
  function IntField(f: seq<(string, Value)>, key: string, default: int): (r: Result<int, SpecError>)
    ensures r.Ok? <==> Lookup(f, key).None? || ToInt(Lookup(f, key).value).Some?
    ensures r.Ok? ==> ReadsInt(f, key, default, r.value)
    ensures r.Err? ==> r.error == NotAnInteger(key)
    ensures Lookup(f, key).None? ==> r == Ok(default)
  {
    match ToInt(GetOr(f, key, JInt(default)))
    case Some(i) => Ok(i)
    case None => Err(NotAnInteger(key))
  }

  predicate IsContainer(v: Value) {
    v.JList? || v.JObj?
  }

  /** The full package version for a Kubernetes minor version. */
  function FullVersion(minor: string): string {
    if minor == "1.31" then "1.31.4-1.1"
    else if minor == "1.30" then "1.30.8-1.1"
    else if minor == "1.29" then "1.29.12-1.1"
    else if minor == "1.28" then "1.28.15-1.1"
    else minor + ".0-1.1"
  }

  /** Every full version extends its minor version with a patch number and
      the "-1.1" package revision. */
  lemma FullVersionShape(minor: string)
    ensures StartsWith(FullVersion(minor), minor + ".") && EndsWith(FullVersion(minor), "-1.1")
  {
    var v := FullVersion(minor);
    var p := minor + ".";
    if minor == "1.31" || minor == "1.30" || minor == "1.29" || minor == "1.28" {
      assert v[..|p|] == p;
      assert v[|v| - 4..] == "-1.1";
    } else {
      assert v == p + "0-1.1";
      assert v[..|p|] == p;
      assert v[|v| - 4..] == "-1.1";
    }
  }

  /** Name and VM-name prefix: a truthy name sets both, otherwise both keep
      their defaults. */
  function NameStep(f: seq<(string, Value)>): (r: Result<(string, string), SpecError>)
    ensures r.Ok? <==> !(Truthy(GetOr(f, "name", JNull)) && IsContainer(GetOr(f, "name", JNull)))
    ensures r.Ok? && Truthy(GetOr(f, "name", JNull)) ==>
      Some(r.value.0) == ScalarText(GetOr(f, "name", JNull)) && r.value.1 == r.value.0 + "-node"
    ensures r.Ok? && !Truthy(GetOr(f, "name", JNull)) ==> r.value == ("k8s-cluster", "k8s-node")
  {
    var v := GetOr(f, "name", JNull);
    if !Truthy(v) then Ok((DefaultSpec().name, DefaultSpec().vmNamePrefix))
    else
      match ScalarText(v)
      case Some(t) => Ok((t, t + "-node"))
      case None => Err(UnsupportedValue("name"))
  }

  /** CNI plugin and pod network: "calico" selects 192.168.0.0/16, any other
      truthy plugin keeps 10.244.0.0/16, and no plugin leaves flannel. */
  function CniStep(f: seq<(string, Value)>): (r: Result<(string, string), SpecError>)
    ensures r.Ok? <==> !(Truthy(GetOr(f, "cni_plugin", JNull)) && IsContainer(GetOr(f, "cni_plugin", JNull)))
    ensures r.Ok? && Truthy(GetOr(f, "cni_plugin", JNull)) ==>
      Some(r.value.0) == ScalarText(GetOr(f, "cni_plugin", JNull))
    ensures r.Ok? && !Truthy(GetOr(f, "cni_plugin", JNull)) ==> r.value.0 == "flannel"
    ensures r.Ok? ==>
      r.value.1 == (if GetOr(f, "cni_plugin", JNull) == JStr("calico") then "192.168.0.0/16" else "10.244.0.0/16")
  {
    var v := GetOr(f, "cni_plugin", JNull);
    if !Truthy(v) then Ok((DefaultSpec().cniPlugin, DefaultSpec().podNetworkCidr))
    else
      match ScalarText(v)
      case Some(t) => Ok((t, if v == JStr("calico") then "192.168.0.0/16" else DefaultSpec().podNetworkCidr))
      case None => Err(UnsupportedValue("cni_plugin"))
  }

  /** Minor and full Kubernetes version. Only a string can be a key of the
      version map; another truthy scalar falls through to the ".0-1.1" form,
      and a list or dict cannot be looked up at all. */
  function VersionStep(f: seq<(string, Value)>): (r: Result<(string, string), SpecError>)
    ensures r.Ok? <==> !(Truthy(GetOr(f, "k8s_version", JNull)) && IsContainer(GetOr(f, "k8s_version", JNull)))
    ensures r.Err? ==> r.error == Unhashable("k8s_version")
    ensures r.Ok? && Truthy(GetOr(f, "k8s_version", JNull)) ==>
      && Some(r.value.0) == ScalarText(GetOr(f, "k8s_version", JNull))
      && r.value.1 == (if GetOr(f, "k8s_version", JNull).JStr? then FullVersion(r.value.0) else r.value.0 + ".0-1.1")
    ensures r.Ok? && !Truthy(GetOr(f, "k8s_version", JNull)) ==> r.value == ("1.31", "1.31.4-1.1")
  {
    var v := GetOr(f, "k8s_version", JNull);
    if !Truthy(v) then Ok((DefaultSpec().k8sVersionMinor, DefaultSpec().k8sVersionFull))
    else
      match v
      case JStr(s) => Ok((s, FullVersion(s)))
      case _ =>
        match ScalarText(v)
        case Some(t) => Ok((t, t + ".0-1.1"))
        case None => Err(Unhashable("k8s_version"))
  }

  /** `list(data["addons"])` when the value is truthy, otherwise no add-ons. */
  function AddonsStep(f: seq<(string, Value)>): (r: Result<seq<Value>, SpecError>)
    ensures r.Ok? <==> !(Truthy(GetOr(f, "addons", JNull)) && Iterate(GetOr(f, "addons", JNull)).None?)
    ensures r.Err? ==> r.error == NotIterable("addons")
    ensures r.Ok? && Truthy(GetOr(f, "addons", JNull)) ==> Some(r.value) == Iterate(GetOr(f, "addons", JNull))
    ensures r.Ok? && !Truthy(GetOr(f, "addons", JNull)) ==> r.value == []
  {
    var v := GetOr(f, "addons", JNull);
    if !Truthy(v) then Ok([])
    else
      match Iterate(v)
      case Some(items) => Ok(items)
      case None => Err(NotIterable("addons"))
  }

  /** Every step of `_json_to_spec` succeeds. */
  predicate StepsSucceed(f: seq<(string, Value)>) {
    && NameStep(f).Ok?
    && IntField(f, "worker_count", 2).Ok?
    && IntField(f, "control_plane_count", 1).Ok?
    && IntField(f, "worker_cores", 2).Ok?
    && IntField(f, "worker_memory_mb", 2048).Ok?
    && IntField(f, "cp_cores", 2).Ok?
    && IntField(f, "cp_memory_mb", 2048).Ok?
    && IntField(f, "ip_start", 201).Ok?
    && CniStep(f).Ok?
    && VersionStep(f).Ok?
    && AddonsStep(f).Ok?
  }

  /** The error of the first failing step, in the order the source runs them. */
  function FirstError(f: seq<(string, Value)>): SpecError
    requires !StepsSucceed(f)
  {
    if NameStep(f).Err? then NameStep(f).error
    else if IntField(f, "worker_count", 2).Err? then IntField(f, "worker_count", 2).error
    else if IntField(f, "control_plane_count", 1).Err? then IntField(f, "control_plane_count", 1).error
    else if IntField(f, "worker_cores", 2).Err? then IntField(f, "worker_cores", 2).error
    else if IntField(f, "worker_memory_mb", 2048).Err? then IntField(f, "worker_memory_mb", 2048).error
    else if IntField(f, "cp_cores", 2).Err? then IntField(f, "cp_cores", 2).error
    else if IntField(f, "cp_memory_mb", 2048).Err? then IntField(f, "cp_memory_mb", 2048).error
    else if IntField(f, "ip_start", 201).Err? then IntField(f, "ip_start", 201).error
    else if CniStep(f).Err? then CniStep(f).error
    else if VersionStep(f).Err? then VersionStep(f).error
    else AddonsStep(f).error
  }

  function Max(a: int, b: int): int {
    if a >= b then a else b
  }

  /** The specification the successful steps assemble, starting from the defaults. */
  function Build(f: seq<(string, Value)>): ClusterSpec
    requires StepsSucceed(f)
  {
    var d := DefaultSpec();
    d.(
      name := NameStep(f).value.0,
      vmNamePrefix := NameStep(f).value.1,
      workerCount := IntField(f, "worker_count", 2).value,
      controlPlaneCount := IntField(f, "control_plane_count", 1).value,
      workerSpec := d.workerSpec.(
        cores := IntField(f, "worker_cores", 2).value,
        memoryMb := IntField(f, "worker_memory_mb", 2048).value),
      controlPlaneSpec := d.controlPlaneSpec.(
        cores := Max(IntField(f, "cp_cores", 2).value, 2),
        memoryMb := Max(IntField(f, "cp_memory_mb", 2048).value, 2048)),
      ipStart := IntField(f, "ip_start", 201).value,
      cniPlugin := CniStep(f).value.0,
      podNetworkCidr := CniStep(f).value.1,
      k8sVersionMinor := VersionStep(f).value.0,
      k8sVersionFull := VersionStep(f).value.1,
      addons := AddonsStep(f).value)
  }

  /** `_json_to_spec`. */
  function JsonToSpec(data: Value): (r: Result<ClusterSpec, SpecError>)
    ensures !data.JObj? ==> r == Err(NotAnObject)
    ensures data.JObj? ==> (r.Ok? <==> StepsSucceed(data.fields))
    // the control-plane minimums always hold
    ensures r.Ok? ==> r.value.controlPlaneSpec.cores >= 2 && r.value.controlPlaneSpec.memoryMb >= 2048
  {
    if !data.JObj? then Err(NotAnObject)
    else if !StepsSucceed(data.fields) then Err(FirstError(data.fields))
    else Ok(Build(data.fields))
  }

  /** `int(data.get(key, default))` does not raise. */
  predicate Converts(f: seq<(string, Value)>, key: string) {
    Lookup(f, key).Some? ==> ToInt(Lookup(f, key).value).Some?
  }

  /** Independent statement of when `_json_to_spec` raises: the object is not
      a dict, a present integer key does not convert, a truthy name, CNI or
      version is a list or dict, or truthy add-ons are not iterable. */
  predicate Coercible(data: Value) {
    && data.JObj?
    && Converts(data.fields, "worker_count") && Converts(data.fields, "control_plane_count")
    && Converts(data.fields, "worker_cores") && Converts(data.fields, "worker_memory_mb")
    && Converts(data.fields, "cp_cores") && Converts(data.fields, "cp_memory_mb")
    && Converts(data.fields, "ip_start")
    && !(Truthy(GetOr(data.fields, "name", JNull)) && IsContainer(GetOr(data.fields, "name", JNull)))
    && !(Truthy(GetOr(data.fields, "cni_plugin", JNull)) && IsContainer(GetOr(data.fields, "cni_plugin", JNull)))
    && !(Truthy(GetOr(data.fields, "k8s_version", JNull)) && IsContainer(GetOr(data.fields, "k8s_version", JNull)))
    && !(Truthy(GetOr(data.fields, "addons", JNull)) && Iterate(GetOr(data.fields, "addons", JNull)).None?)
  }

  /** A present key converts exactly when its integer step succeeds. */
  lemma ConvertsIff(f: seq<(string, Value)>, key: string, default: int)
    ensures Converts(f, key) <==> IntField(f, key, default).Ok?
  {
  }

  /** `_json_to_spec` succeeds exactly on coercible objects. */
  lemma JsonToSpecSucceeds(data: Value)
    ensures JsonToSpec(data).Ok? <==> Coercible(data)
  {
    if data.JObj? {
      var f := data.fields;
      ConvertsIff(f, "worker_count", 2);
      ConvertsIff(f, "control_plane_count", 1);
      ConvertsIff(f, "worker_cores", 2);
      ConvertsIff(f, "worker_memory_mb", 2048);
      ConvertsIff(f, "cp_cores", 2);
      ConvertsIff(f, "cp_memory_mb", 2048);
      ConvertsIff(f, "ip_start", 201);
    }
  }

  /** Counts, worker sizing and the address offset are `int(value)` when the
      key is present and the default otherwise; only the control-plane sizing
      is raised to its minimum. */
  lemma JsonToSpecIntegers(f: seq<(string, Value)>)
    ensures var r := JsonToSpec(JObj(f));
      r.Ok? ==>
        && ReadsInt(f, "worker_count", 2, r.value.workerCount)
        && ReadsInt(f, "control_plane_count", 1, r.value.controlPlaneCount)
        && ReadsInt(f, "worker_cores", 2, r.value.workerSpec.cores)
        && ReadsInt(f, "worker_memory_mb", 2048, r.value.workerSpec.memoryMb)
        && ReadsInt(f, "ip_start", 201, r.value.ipStart)
        && ReadsIntAtLeast(f, "cp_cores", 2, 2, r.value.controlPlaneSpec.cores)
        && ReadsIntAtLeast(f, "cp_memory_mb", 2048, 2048, r.value.controlPlaneSpec.memoryMb)
  {
    var r := JsonToSpec(JObj(f));
    if r.Ok? {
      var cores := IntField(f, "cp_cores", 2);
      var memory := IntField(f, "cp_memory_mb", 2048);
      assert r.value.controlPlaneSpec.cores == Max(cores.value, 2);
      assert r.value.controlPlaneSpec.memoryMb == Max(memory.value, 2048);
    }
  }

  /** A truthy name sets the name and the "-node" VM prefix; otherwise both keep
      their defaults. */
  lemma JsonToSpecName(f: seq<(string, Value)>)
    ensures var r := JsonToSpec(JObj(f));
      r.Ok? ==>
        && (Truthy(GetOr(f, "name", JNull)) ==>
              Some(r.value.name) == ScalarText(GetOr(f, "name", JNull))
              && r.value.vmNamePrefix == r.value.name + "-node")
        && (!Truthy(GetOr(f, "name", JNull)) ==>
              r.value.name == "k8s-cluster" && r.value.vmNamePrefix == "k8s-node")
  {
    var r := JsonToSpec(JObj(f));
    if r.Ok? {
      assert (r.value.name, r.value.vmNamePrefix) == NameStep(f).value;
    }
  }

  /** The CNI plugin and the pod network it implies. */
  lemma JsonToSpecCni(f: seq<(string, Value)>)
    ensures var r := JsonToSpec(JObj(f));
      r.Ok? ==>
        && (Truthy(GetOr(f, "cni_plugin", JNull)) ==>
              Some(r.value.cniPlugin) == ScalarText(GetOr(f, "cni_plugin", JNull)))
        && r.value.podNetworkCidr ==
             (if GetOr(f, "cni_plugin", JNull) == JStr("calico") then "192.168.0.0/16" else "10.244.0.0/16")
        && (!Truthy(GetOr(f, "cni_plugin", JNull)) ==> r.value.cniPlugin == "flannel")
  {
    var r := JsonToSpec(JObj(f));
    if r.Ok? {
      assert (r.value.cniPlugin, r.value.podNetworkCidr) == CniStep(f).value;
    }
  }

  /** The Kubernetes version: a truthy string is looked up in the version map,
      any other truthy scalar gets the ".0-1.1" suffix, and no version keeps
      1.31 / 1.31.4-1.1. */
  lemma JsonToSpecVersion(f: seq<(string, Value)>)
    ensures var r := JsonToSpec(JObj(f));
      r.Ok? ==>
        && (Truthy(GetOr(f, "k8s_version", JNull)) ==>
              && Some(r.value.k8sVersionMinor) == ScalarText(GetOr(f, "k8s_version", JNull))
              && r.value.k8sVersionFull ==
                   (if GetOr(f, "k8s_version", JNull).JStr? then FullVersion(r.value.k8sVersionMinor)
                    else r.value.k8sVersionMinor + ".0-1.1"))
        && (!Truthy(GetOr(f, "k8s_version", JNull)) ==>
              r.value.k8sVersionMinor == "1.31" && r.value.k8sVersionFull == "1.31.4-1.1")
  {
    var r := JsonToSpec(JObj(f));
    if r.Ok? {
      assert (r.value.k8sVersionMinor, r.value.k8sVersionFull) == VersionStep(f).value;
    }
  }

  /** Truthy add-ons are copied as `list(value)` gives them (a list verbatim);
      otherwise there are none. */
  lemma JsonToSpecAddons(f: seq<(string, Value)>)
    ensures var r := JsonToSpec(JObj(f));
      r.Ok? ==>
        && (Truthy(GetOr(f, "addons", JNull)) ==> Some(r.value.addons) == Iterate(GetOr(f, "addons", JNull)))
        && (GetOr(f, "addons", JNull).JList? ==> r.value.addons == GetOr(f, "addons", JNull).items)
        && (!Truthy(GetOr(f, "addons", JNull)) ==> r.value.addons == [])
  {
    if JsonToSpec(JObj(f)).Ok? {
      AddonsFromStep(f);
      AddonsStepList(f);
    }
  }

  /** A list under "addons" is taken verbatim. */
  lemma AddonsStepList(f: seq<(string, Value)>)
    ensures GetOr(f, "addons", JNull).JList? ==>
      AddonsStep(f) == Ok(GetOr(f, "addons", JNull).items)
  {
    var v := GetOr(f, "addons", JNull);
    if v.JList? && Truthy(v) {
      assert Iterate(v) == Some(v.items);
    }
  }

  /** A successful specification carries the add-ons step's list. */
  lemma AddonsFromStep(f: seq<(string, Value)>)
    requires JsonToSpec(JObj(f)).Ok?
    ensures AddonsStep(f).Ok? && JsonToSpec(JObj(f)).value.addons == AddonsStep(f).value
  {
    assert JsonToSpec(JObj(f)).value == Build(f);
  }

  /** Every field the reply cannot set keeps its declared default. */
  lemma JsonToSpecKeepsTheRest(f: seq<(string, Value)>)
    ensures var r := JsonToSpec(JObj(f));
      r.Ok? ==>
        && r.value.ipPrefix == "10.40.19."
        && r.value.ipGateway == "10.40.19.254"
        && r.value.dnsServer == "10.40.2.1"
        && r.value.networkBridge == "vmbr0"
        && r.value.targetNode == "pve1"
        && r.value.templateId == 990
        && r.value.storage == "local-lvm"
        && r.value.sshUser == "ubuntu" && r.value.sshPassword == "ubuntu"
        && r.value.controlPlaneSpec.diskSize == "20G"
        && r.value.workerSpec.diskSize == "20G"
  {
  }

  /** An empty object gives the default specification except for the
      control-plane memory: its fallback is 2048, so the declared 4096 never
      survives `_json_to_spec`. */
  lemma EmptyReplySpec()
    ensures JsonToSpec(JObj([])) == Ok(DefaultSpec().(controlPlaneSpec := NodeSpec(2, 2048, "20G")))
  {
    assert NameStep([]) == Ok(("k8s-cluster", "k8s-node"));
    assert CniStep([]) == Ok(("flannel", "10.244.0.0/16"));
    assert VersionStep([]) == Ok(("1.31", "1.31.4-1.1"));
    assert AddonsStep([]) == Ok([]);
    assert StepsSucceed([]);
  }

  // ---------------------------------------------------------------------------
  // parse_intent
  // ---------------------------------------------------------------------------

  const ContextIntro: string := "Current Proxmox environment:\n"
  const RequestIntro: string := "\n\nUser request: "

  /** The user message: the intent alone, or the rendered Proxmox context
      between the two fixed introductions, followed by the intent. */
  function UserMessage(text: string, context: Option<ProxmoxClient.Context>): (r: string)
    ensures context.None? ==> r == text
    ensures context.Some? ==>
      |r| == |ContextIntro| + |ProxmoxClient.PromptText(context.value)| + |RequestIntro| + |text|
    ensures context.Some? ==> StartsWith(r, ContextIntro) && EndsWith(r, RequestIntro + text)
    ensures context.Some? ==>
      r[|ContextIntro|..|r| - |RequestIntro + text|] == ProxmoxClient.PromptText(context.value)
  {
    match context
    case None => text
    case Some(ctx) =>
      var c := ProxmoxClient.PromptText(ctx);
      ConcatParts(ContextIntro, c, RequestIntro + text);
      ContextIntro + c + (RequestIntro + text)
  }

  datatype ParseError =
    | OllamaUnavailable            // `is_available()` is false
    | ChatFailed                   // the chat request raised
    | NoJson(cause: ExtractError)  // no '{' or no '}' in the reply
    | InvalidJson                  // `json.loads` raised on the candidate
    | BadSpec(reason: SpecError)   // `_json_to_spec` raised

  /** The specification, the reply's reasoning (`data.get("reasoning", "")`)
      and the decoded object. */
  datatype Interpretation = Interpretation(spec: ClusterSpec, reasoning: Value, raw: Value)

  /** Decoding a candidate slice (`json.loads` is the `loads` oracle, None when
      it raises) and coercing it. */
  function Interpret(candidate: Result<string, ExtractError>, loads: string -> Option<Value>): (r: Result<Interpretation, ParseError>)
    ensures r.Ok? <==> candidate.Ok? && loads(candidate.value).Some? && Coercible(loads(candidate.value).value)
    ensures r.Ok? ==> Ok(r.value.spec) == JsonToSpec(loads(candidate.value).value)
    ensures r.Ok? ==> r.value.raw == loads(candidate.value).value
    ensures r.Ok? ==> r.value.reasoning == GetOr(r.value.raw.fields, "reasoning", JStr(""))
    ensures candidate.Err? ==> r == Err(NoJson(candidate.error))
  {
    match candidate
    case Err(e) => Err(NoJson(e))
    case Ok(c) =>
      match loads(c)
      case None => Err(InvalidJson)
      case Some(data) =>
        JsonToSpecSucceeds(data);
        match JsonToSpec(data)
        case Err(e) => Err(BadSpec(e))
        case Ok(spec) => Ok(Interpretation(spec, GetOr(data.fields, "reasoning", JStr("")), data))
  }

  /** `parse_intent`. The model server is the `available` flag and the `chat`
      oracle (user message to reply, None when the request raises). */
  function ParseIntent(
    text: string,
    context: Option<ProxmoxClient.Context>,
    available: bool,
    chat: string -> Option<string>,
    loads: string -> Option<Value>): (r: Result<Interpretation, ParseError>)
    ensures !available ==> r == Err(OllamaUnavailable)
    ensures available && chat(UserMessage(text, context)).None? ==> r == Err(ChatFailed)
    ensures r.Ok? ==> available && chat(UserMessage(text, context)).Some?
  {
    if !available then Err(OllamaUnavailable)
    else
      match chat(UserMessage(text, context))
      case None => Err(ChatFailed)
      case Some(reply) => Interpret(ExtractJson(reply), loads)
  }

  /** What `parse_intent` returns depends on the reply only through the slice
      from its first '{' to its last '}': fences and surrounding whitespace
      are irrelevant. */
  lemma ParseIntentUsesBraceSlice(
    text: string,
    context: Option<ProxmoxClient.Context>,
    chat: string -> Option<string>,
    loads: string -> Option<Value>)
    requires chat(UserMessage(text, context)).Some?
    ensures ParseIntent(text, context, true, chat, loads)
      == Interpret(BraceSlice(chat(UserMessage(text, context)).value), loads)
  {
    FencesDoNotMatter(chat(UserMessage(text, context)).value);
  }
}
