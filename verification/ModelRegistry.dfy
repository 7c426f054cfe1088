/** The variant lookup of include/libembedding/model_registry.h and the bounded buffer in
    which it lists the modes that a model does have.
 */
module ModelRegistry {
  import opened Options

  datatype ModelInfo = ModelInfo(code: string, name: string, quantization: int)

  function QuantizationName(quantization: int): (s: string)
    ensures 4 <= |s| <= 7 && NoNul(s)
  {
    match quantization
    case 1 => "static"
    case 2 => "dynamic"
    case 3 => "auto"
    case 4 => "fp16"
    case _ => "none"
  }

  predicate NoNul(s: string) { forall i :: 0 <= i < |s| ==> s[i] != '\0' }

  const CAPACITY := 128

  /** The buffer holds s as a C string. */
  ghost predicate Holds(buf: array<char>, s: string)
    reads buf
  {
    |s| < buf.Length && buf[..|s|] == s && buf[|s|] == '\0' && NoNul(s)
  }

  method Strlen(buf: array<char>, ghost s: string) returns (n: nat)
    requires Holds(buf, s)
    ensures n == |s|
  {
    n := 0;
    while buf[n] != '\0'
      invariant n <= |s|
      decreases |s| - n
    {
      assert n < |s|;
      n := n + 1;
    }
  }

  /** memcpy(buf + at, text, strlen(text)) */
  method Memcpy(buf: array<char>, at: nat, text: string)
    requires at + |text| <= buf.Length
    modifies buf
    ensures buf[..] == old(buf[..at]) + text + old(buf[at + |text|..])
  {
    for k := 0 to |text|
      invariant buf[..] == old(buf[..at]) + text[..k] + old(buf[at + k..])
    {
      buf[at + k] := text[k];
    }
  }

  /* ---- Specification ---- */

  /** The modes a model has, in registry order. */
  function Modes(models: seq<ModelInfo>, name: string): seq<string> {
    if models == [] then []
    else (if models[0].name == name then [QuantizationName(models[0].quantization)] else []) + Modes(models[1..], name)
  }

  function Join(parts: seq<string>): string {
    if parts == [] then ""
    else if |parts| == 1 then parts[0]
    else Join(parts[..|parts| - 1]) + ", " + parts[|parts| - 1]
  }

  predicate Fits(used: nat, name: string) { used + |name| + 3 < CAPACITY }

  /** The number of modes written before the first one that no longer fits. */
  function Written(modes: seq<string>): (m: nat)
    ensures m <= |modes|
  {
    if modes == [] then 0
    else
      var before := Written(modes[..|modes| - 1]);
      if before == |modes| - 1 && Fits(|Join(modes[..|modes| - 1])|, modes[|modes| - 1]) then |modes| else before
  }

  predicate HasVariant(models: seq<ModelInfo>, name: string, quantization: int) {
    exists i :: 0 <= i < |models| && models[i].name == name && models[i].quantization == quantization
  }

  /* ---- The function ---- */

  /** The modes that the message shows: those that were written, or "none" in place of an
      empty buffer. */
  function Shown(models: seq<ModelInfo>, name: string): seq<string> {
    var modes := Modes(models, name);
    if Written(modes) == 0 then ["none"] else modes[..Written(modes)]
  }

  const MESSAGE_CAPACITY := 320

  function FullMessage(name: string, mode: string, shown: string): string {
    "Model '" + name + "' has no '" + mode + "' variant (available: " + shown + ")"
  }

  /** snprintf: what fits in front of the terminator. */
  function Truncated(message: string): string {
    if |message| < MESSAGE_CAPACITY then message else message[..MESSAGE_CAPACITY - 1]
  }

  /** Index of the entry, or -1 together with the error message. */
  method FindVariant(models: seq<ModelInfo>, name: Option<string>, quantization: int)
    returns (index: int, message: string)
    ensures name.None? ==> index == -1 && message == ""
    ensures name.Some? && HasVariant(models, name.value, quantization) ==>
              && message == ""
              && 0 <= index < |models| && models[index].name == name.value && models[index].quantization == quantization
              && forall j :: 0 <= j < index ==> models[j].name != name.value || models[j].quantization != quantization
    ensures name.Some? && !HasVariant(models, name.value, quantization) ==>
              && index == -1
              && message == Truncated(FullMessage(name.value, QuantizationName(quantization), Join(Shown(models, name.value))))
  {
    if name.None? {
      return -1, "";
    }
    for i := 0 to |models|
      invariant forall j :: 0 <= j < i ==> models[j].name != name.value || models[j].quantization != quantization
    {
      if models[i].name == name.value && models[i].quantization == quantization {
        return i, "";
      }
    }
    var available := ListModes(models, name.value);
    ShownText(models, name.value);
    var shown := if available != "" then available else "none";
    return -1, Truncated(FullMessage(name.value, QuantizationName(quantization), shown));
  }

  lemma ShownText(models: seq<ModelInfo>, name: string)
    ensures var text := Join(Modes(models, name)[..Written(Modes(models, name))]);
            Join(Shown(models, name)) == if text != "" then text else "none"
  {
    ModesShort(models, name);
    JoinNonEmpty(Modes(models, name)[..Written(Modes(models, name))]);
  }

  method ListModes(models: seq<ModelInfo>, name: string) returns (available: string)
    ensures available == Join(Modes(models, name)[..Written(Modes(models, name))])
    ensures |available| <= CAPACITY - 2
  {
    var buf := new char[CAPACITY](_ => '\0');
    ghost var s := "";
    ghost var m := 0;
    ListedAtFirst(models, name);
    var i := 0;
    while i < |models|
      invariant i <= |models| && buf.Length == CAPACITY && fresh(buf)
      invariant Holds(buf, s) && Listed(models, name, i, m, s)
      decreases |models| - i
    {
      var fits;
      fits, m, s := ListEntry(buf, models, name, i, m, s);
      if !fits {
        break;
      }
      i := i + 1;
    }
    if i == |models| {
      ListedAtLast(models, name, m, s);
    }
    var n := Strlen(buf, s);
    available := buf[..n];
  }

  /** One turn of the loop: an entry of another model is skipped. */
  method ListEntry(buf: array<char>, models: seq<ModelInfo>, name: string, i: nat, ghost m: nat, ghost s: string)
    returns (fits: bool, ghost m': nat, ghost s': string)
    requires i < |models| && buf.Length == CAPACITY && Holds(buf, s) && Listed(models, name, i, m, s)
    modifies buf
    ensures Holds(buf, s')
    ensures fits ==> Listed(models, name, i + 1, m', s')
    ensures !fits ==> m' == m && s' == s && Written(Modes(models, name)) == m
  {
    fits, m', s' := true, m, s;
    ListedStep(models, name, i, m, s);
    if models[i].name == name {
      var mode := QuantizationName(models[i].quantization);
      fits := TryAppend(buf, s, mode);
      if fits {
        s', m' := Appended(s, mode), m + 1;
      }
    }
  }

  /** After i entries the text is the join of the first m modes, all of which fitted. */
  ghost predicate Listed(models: seq<ModelInfo>, name: string, i: nat, m: nat, s: string)
    requires i <= |models|
  {
    var modes := Modes(models, name);
    && m <= |modes| && modes == modes[..m] + Modes(models[i..], name)
    && s == Join(modes[..m]) && Written(modes[..m]) == m && |s| <= CAPACITY - 2
  }

  lemma ListedAtFirst(models: seq<ModelInfo>, name: string)
    ensures Listed(models, name, 0, 0, "")
  {
    assert models[0..] == models;
  }

  lemma ListedAtLast(models: seq<ModelInfo>, name: string, m: nat, s: string)
    requires Listed(models, name, |models|, m, s)
    ensures Written(Modes(models, name)) == m && s == Join(Modes(models, name)[..m])
  {
    assert Modes(models, name)[..m] == Modes(models, name);
  }

  lemma ListedStep(models: seq<ModelInfo>, name: string, i: nat, m: nat, s: string)
    requires i < |models| && Listed(models, name, i, m, s)
    ensures models[i].name != name ==> Listed(models, name, i + 1, m, s)
    ensures models[i].name == name ==>
              var mode := QuantizationName(models[i].quantization);
              if Fits(|s|, mode) then Listed(models, name, i + 1, m + 1, Appended(s, mode))
              else Written(Modes(models, name)) == m
  {
    var modes := Modes(models, name);
    ModesStep(models, name, i, m, modes);
    if models[i].name == name {
      ModesShort(models, name);
      WrittenStep(modes, m);
      JoinStep(modes, m);
      if !Fits(|s|, modes[m]) {
        WrittenStops(modes, m);
      }
    }
  }

  /** One turn of the loop for a matching entry: measure, check the room, append. */
  method TryAppend(buf: array<char>, ghost s: string, mode: string) returns (fits: bool)
    requires buf.Length == CAPACITY && Holds(buf, s) && NoNul(mode) && mode != ""
    modifies buf
    ensures fits <==> Fits(|s|, mode)
    ensures Holds(buf, if fits then Appended(s, mode) else s)
  {
    var used := Strlen(buf, s);
    if used + |mode| + 3 >= CAPACITY {
      return false;
    }
    AppendMode(buf, s, mode, used);
    return true;
  }

  function Appended(s: string, mode: string): string { if s == "" then mode else s + ", " + mode }

  /** Writes the separator and the mode behind the text, and the terminator behind both. */
  method AppendMode(buf: array<char>, ghost s: string, mode: string, used: nat)
    requires buf.Length == CAPACITY && Holds(buf, s) && used == |s| && Fits(used, mode) && NoNul(mode) && mode != ""
    modifies buf
    ensures Holds(buf, Appended(s, mode)) && |Appended(s, mode)| <= CAPACITY - 2
  {
    var at := used;
    if at > 0 {
      buf[at] := ',';
      buf[at + 1] := ' ';
      at := at + 2;
      assert buf[..at] == s + ", ";
    }
    Memcpy(buf, at, mode);
    buf[at + |mode|] := '\0';
    assert buf[..at + |mode|] == Appended(s, mode);
  }

  lemma {:induction false} ModesShort(models: seq<ModelInfo>, name: string)
    ensures forall k :: 0 <= k < |Modes(models, name)| ==> 4 <= |Modes(models, name)[k]| <= 7
  {
    if models != [] {
      ModesShort(models[1..], name);
    }
  }

  lemma ModesStep(models: seq<ModelInfo>, name: string, i: nat, m: nat, modes: seq<string>)
    requires i < |models| && m <= |modes| && modes == modes[..m] + Modes(models[i..], name)
    ensures models[i].name != name ==> modes == modes[..m] + Modes(models[i + 1..], name)
    ensures models[i].name == name ==>
              && m < |modes| && modes[m] == QuantizationName(models[i].quantization)
              && modes == modes[..m + 1] + Modes(models[i + 1..], name)
  {
    assert models[i..][1..] == models[i + 1..];
    var rest := Modes(models[i..], name);
    if models[i].name == name {
      assert modes[m] == rest[0];
      assert modes[..m + 1] == modes[..m] + [rest[0]];
    }
  }

  lemma WrittenStep(modes: seq<string>, m: nat)
    requires m < |modes| && Written(modes[..m]) == m
    ensures Written(modes[..m + 1]) == if Fits(|Join(modes[..m])|, modes[m]) then m + 1 else m
  {
    assert modes[..m + 1][..m] == modes[..m];
  }

  lemma JoinStep(modes: seq<string>, m: nat)
    requires m < |modes| && forall k :: 0 <= k < |modes| ==> modes[k] != ""
    ensures Join(modes[..m + 1]) == Appended(Join(modes[..m]), modes[m])
  {
    assert modes[..m + 1][..m] == modes[..m];
    JoinNonEmpty(modes[..m]);
  }

  lemma JoinNonEmpty(parts: seq<string>)
    requires forall k :: 0 <= k < |parts| ==> parts[k] != ""
    ensures Join(parts) == "" <==> parts == []
  {
  }

  // Once a mode does not fit, nothing after it is written.
  lemma {:induction false} WrittenStops(modes: seq<string>, m: nat)
    requires m < |modes| && Written(modes[..m + 1]) == m
    ensures Written(modes) == m
  {
    if m + 1 == |modes| {
      assert modes[..m + 1] == modes;
    } else {
      assert modes[..|modes| - 1][..m + 1] == modes[..m + 1];
      WrittenStops(modes[..|modes| - 1], m);
    }
  }

  /* ---- What the message says ---- */

  /** The list shows a prefix of the modes, and stops only at one that would not fit. */
  lemma {:induction false} WrittenIsMaximal(modes: seq<string>)
    ensures var m := Written(modes);
            && (forall k :: 0 <= k < m ==> Fits(|Join(modes[..k])|, modes[k]))
            && (m < |modes| ==> !Fits(|Join(modes[..m])|, modes[m]))
  {
    if modes != [] {
      var before := modes[..|modes| - 1];
      WrittenIsMaximal(before);
      var m := Written(modes);
      forall k | 0 <= k < |modes| ensures before[..k] == modes[..k] {
      }
    }
  }

  /** All modes are shown exactly when their list takes at most 126 characters (every mode
      name being short). */
  lemma AllShownIff(modes: seq<string>)
    requires forall k :: 0 <= k < |modes| ==> 0 < |modes[k]| <= 7
    ensures Written(modes) == |modes| <==> |Join(modes)| <= CAPACITY - 2
  {
    WrittenIsMaximal(modes);
    var m := Written(modes);
    if m < |modes| {
      JoinStep(modes, m);
      JoinNonEmpty(modes[..m]);
      JoinGrows(modes, m + 1);
    } else if m > 0 {
      JoinStep(modes, m - 1);
      assert modes[..m] == modes;
    }
  }

  lemma {:induction false} JoinGrows(modes: seq<string>, m: nat)
    requires m <= |modes|
    ensures |Join(modes[..m])| <= |Join(modes)|
  {
    if m == |modes| {
      assert modes[..m] == modes;
    } else {
      assert modes[..|modes| - 1][..m] == modes[..m];
      JoinGrows(modes[..|modes| - 1], m);
    }
  }

  lemma {:induction false} WrittenOfPrefix(modes: seq<string>, m: nat)
    requires m <= |modes|
    ensures Written(modes[..m]) == if Written(modes) < m then Written(modes) else m
  {
    if m == |modes| {
      assert modes[..m] == modes;
    } else {
      assert modes[..|modes| - 1][..m] == modes[..m];
      WrittenOfPrefix(modes[..|modes| - 1], m);
    }
  }

  /** The k-th mode is shown exactly when the list up to and including it takes at most 126
      characters. */
  lemma WrittenBeyondIff(modes: seq<string>, k: nat)
    requires k < |modes| && forall j :: 0 <= j < |modes| ==> 0 < |modes[j]| <= 7
    ensures k < Written(modes) <==> |Join(modes[..k + 1])| <= CAPACITY - 2
  {
    AllShownIff(modes[..k + 1]);
    WrittenOfPrefix(modes, k + 1);
  }

  lemma FirstAlwaysFits(modes: seq<string>)
    requires modes != [] && forall j :: 0 <= j < |modes| ==> 0 < |modes[j]| <= 7
    ensures Written(modes) > 0
  {
    WrittenBeyondIff(modes, 0);
    assert modes[..1] == [modes[0]];
  }

  predicate KnownMode(quantization: int) { 0 <= quantization <= 4 }

  predicate HasModel(models: seq<ModelInfo>, name: string) {
    exists i :: 0 <= i < |models| && models[i].name == name
  }

  lemma {:induction false} ModesConcat(a: seq<ModelInfo>, b: seq<ModelInfo>, name: string)
    ensures Modes(a + b, name) == Modes(a, name) + Modes(b, name)
  {
    if a == [] {
      assert a + b == b;
    } else {
      assert (a + b)[1..] == a[1..] + b;
      ModesConcat(a[1..], b, name);
    }
  }

  /** Where an entry's mode stands in the list. */
  lemma ModeOfEntry(models: seq<ModelInfo>, name: string, i: nat)
    requires i < |models| && models[i].name == name
    ensures var k := |Modes(models[..i], name)|;
            && k < |Modes(models, name)| && Modes(models, name)[k] == QuantizationName(models[i].quantization)
            && Modes(models, name)[..k + 1] == Modes(models[..i + 1], name)
  {
    var entry := [models[i]];
    assert models[..i + 1] == models[..i] + entry && models == models[..i + 1] + models[i + 1..];
    ModesConcat(models[..i], entry, name);
    ModesConcat(models[..i + 1], models[i + 1..], name);
    assert Modes(entry, name) == [QuantizationName(models[i].quantization)];
  }

  lemma {:induction false} EntryOfMode(models: seq<ModelInfo>, name: string, k: nat) returns (i: nat)
    requires k < |Modes(models, name)|
    ensures i < |models| && models[i].name == name && |Modes(models[..i], name)| == k
    decreases |models|
  {
    var n := |models| - 1;
    assert models == models[..n] + [models[n]];
    ModesConcat(models[..n], [models[n]], name);
    if k < |Modes(models[..n], name)| {
      i := EntryOfMode(models[..n], name, k);
      assert models[..n][..i] == models[..i];
    } else {
      i := n;
    }
  }

  /** An unquantized entry of the model that still fits into the list. */
  predicate ShowsUnquantized(models: seq<ModelInfo>, name: string) {
    exists i :: 0 <= i < |models| && models[i].name == name && models[i].quantization == 0
                && |Join(Modes(models[..i + 1], name))| <= CAPACITY - 2
  }

  /** After a failed lookup the message lists the very mode that it says is missing in two
      cases only, both of them about the name "none": for a model that is not in the
      registry, where it stands for an empty list; and for a number outside the
      enumeration, which is called "none" too, when an unquantized entry is shown. */
  lemma RequestedModeShownIff(models: seq<ModelInfo>, name: string, quantization: int)
    requires forall i :: 0 <= i < |models| ==> KnownMode(models[i].quantization)
    requires !HasVariant(models, name, quantization)
    ensures QuantizationName(quantization) in Shown(models, name)
            <==> || (!HasModel(models, name) && (quantization == 0 || !KnownMode(quantization)))
                 || (!KnownMode(quantization) && ShowsUnquantized(models, name))
  {
    NamesDiffer();
    if HasModel(models, name) {
      ListedModeIff(models, name, quantization);
    } else {
      UnknownModelShowsNone(models, name);
      assert QuantizationName(quantization) == QuantizationName(0) <==> quantization == 0 || !KnownMode(quantization);
    }
  }

  /** An unknown model, asked for unquantized: "has no 'none' variant (available: none)". */
  lemma UnknownModelShowsNone(models: seq<ModelInfo>, name: string)
    requires !HasModel(models, name)
    ensures Modes(models, name) == [] && Shown(models, name) == ["none"] && QuantizationName(0) == "none"
    ensures !HasVariant(models, name, 0)
  {
    if Modes(models, name) != [] {
      var i := EntryOfMode(models, name, 0);
    }
  }

  lemma SomethingShown(models: seq<ModelInfo>, name: string)
    requires HasModel(models, name)
    ensures Shown(models, name) == Modes(models, name)[..Written(Modes(models, name))]
  {
    var j :| 0 <= j < |models| && models[j].name == name;
    ModeOfEntry(models, name, j);
    ModesShort(models, name);
    FirstAlwaysFits(Modes(models, name));
  }

  /** An entry's mode is shown exactly when the list up to it fits. */
  lemma EntryShownIff(models: seq<ModelInfo>, name: string, i: nat)
    requires i < |models| && models[i].name == name
    ensures var k := |Modes(models[..i], name)|;
            k < Written(Modes(models, name)) <==> |Join(Modes(models[..i + 1], name))| <= CAPACITY - 2
  {
    ModesShort(models, name);
    ModeOfEntry(models, name, i);
    WrittenBeyondIff(Modes(models, name), |Modes(models[..i], name)|);
  }

  lemma ListedModeIff(models: seq<ModelInfo>, name: string, quantization: int)
    requires forall i :: 0 <= i < |models| ==> KnownMode(models[i].quantization)
    requires !HasVariant(models, name, quantization) && HasModel(models, name)
    ensures QuantizationName(quantization) in Shown(models, name)
            <==> !KnownMode(quantization) && ShowsUnquantized(models, name)
  {
    SomethingShown(models, name);
    if QuantizationName(quantization) in Shown(models, name) {
      ListedMode(models, name, quantization);
    }
    if !KnownMode(quantization) && ShowsUnquantized(models, name) {
      var i :| 0 <= i < |models| && models[i].name == name && models[i].quantization == 0
               && |Join(Modes(models[..i + 1], name))| <= CAPACITY - 2;
      EntryShownIff(models, name, i);
      ModeOfEntry(models, name, i);
      NamesDiffer();
      assert Shown(models, name)[|Modes(models[..i], name)|] == QuantizationName(0);
    }
  }

  lemma ListedMode(models: seq<ModelInfo>, name: string, quantization: int)
    requires forall i :: 0 <= i < |models| ==> KnownMode(models[i].quantization)
    requires !HasVariant(models, name, quantization)
    requires QuantizationName(quantization) in Modes(models, name)[..Written(Modes(models, name))]
    ensures !KnownMode(quantization) && ShowsUnquantized(models, name)
  {
    var modes := Modes(models, name);
    var k :| 0 <= k < Written(modes) && modes[k] == QuantizationName(quantization);
    var i := EntryOfMode(models, name, k);
    ModeOfEntry(models, name, i);
    EntryShownIff(models, name, i);
    NamesDiffer();
    assert models[i].quantization == 0;
  }

  /* An entry that does not fit: fourteen times "dynamic", then unquantized. */

  function Copies<T>(x: T, n: nat): seq<T> { seq(n, _ => x) }

  function Crowded(): seq<ModelInfo> { Copies(ModelInfo("", "m", 2), 14) + [ModelInfo("", "m", 0)] }

  lemma {:induction false} ModesOfCopies(e: ModelInfo, n: nat)
    ensures Modes(Copies(e, n), e.name) == Copies(QuantizationName(e.quantization), n)
  {
    if n > 0 {
      assert Copies(e, n)[1..] == Copies(e, n - 1);
      ModesOfCopies(e, n - 1);
    }
  }

  lemma {:induction false} JoinOfCopies(mode: string, n: nat)
    requires n > 0
    ensures |Join(Copies(mode, n))| == n * (|mode| + 2) - 2
  {
    if n > 1 {
      assert Copies(mode, n)[..n - 1] == Copies(mode, n - 1);
      JoinOfCopies(mode, n - 1);
      assert n * (|mode| + 2) == (n - 1) * (|mode| + 2) + |mode| + 2;
    }
  }

  lemma CrowdedModes()
    ensures Modes(Crowded(), "m") == Copies(QuantizationName(2), 14) + [QuantizationName(0)]
  {
    var last := [ModelInfo("", "m", 0)];
    ModesOfCopies(ModelInfo("", "m", 2), 14);
    ModesConcat(Copies(ModelInfo("", "m", 2), 14), last, "m");
    assert Modes(last, "m") == [QuantizationName(0)];
  }

  lemma LastJoined(parts: seq<string>, last: string)
    requires parts != []
    ensures |Join(parts + [last])| == |Join(parts)| + 2 + |last|
  {
    assert (parts + [last])[..|parts|] == parts;
  }

  lemma CrowdedLength()
    ensures |Join(Modes(Crowded(), "m"))| == 130
  {
    CrowdedModes();
    JoinOfCopies(QuantizationName(2), 14);
    LastJoined(Copies(QuantizationName(2), 14), QuantizationName(0));
  }

  lemma CrowdedEntries(i: nat)
    requires i < |Crowded()|
    ensures |Crowded()| == 15 && Crowded()[i].name == "m" && Crowded()[i].quantization == if i < 14 then 2 else 0
    ensures Crowded()[..15] == Crowded()
  {
  }

  lemma HiddenEntry(models: seq<ModelInfo>, name: string, i: nat, quantization: int)
    requires i < |models| && models[i].name == name && !KnownMode(quantization)
    requires forall j :: 0 <= j < |models| ==> KnownMode(models[j].quantization)
    requires forall j :: 0 <= j < |models| ==> (models[j].quantization == 0 <==> j == i)
    requires |Join(Modes(models[..i + 1], name))| > CAPACITY - 2
    ensures HasVariant(models, name, 0) && !ShowsUnquantized(models, name)
    ensures QuantizationName(quantization) in Modes(models, name)
    ensures QuantizationName(quantization) !in Shown(models, name)
  {
    RequestedModeShownIff(models, name, quantization);
    ModeOfEntry(models, name, i);
    NamesDiffer();
    assert Modes(models, name)[|Modes(models[..i], name)|] == QuantizationName(0);
  }

  /** The model is there unquantized, but the message no longer says so, and an unknown mode
      number is not listed either. */
  lemma CrowdedListHidesUnquantized()
    ensures HasVariant(Crowded(), "m", 0) && !ShowsUnquantized(Crowded(), "m")
    ensures QuantizationName(5) in Modes(Crowded(), "m") && QuantizationName(5) !in Shown(Crowded(), "m")
  {
    CrowdedLength();
    CrowdedEntries(14);
    forall j | 0 <= j < |Crowded()|
      ensures KnownMode(Crowded()[j].quantization) && (Crowded()[j].quantization == 0 <==> j == 14)
    {
      CrowdedEntries(j);
    }
    HiddenEntry(Crowded(), "m", 14, 5);
  }

  /** The message is printed whole exactly when name, mode and list leave room for the 40
      characters around them. */
  lemma MessageWholeIff(name: string, mode: string, shown: string)
    ensures Truncated(FullMessage(name, mode, shown)) == FullMessage(name, mode, shown)
            <==> |name| + |mode| + |shown| <= MESSAGE_CAPACITY - 41
  {
    assert |FullMessage(name, mode, shown)| == 40 + |name| + |mode| + |shown|;
  }

  lemma NamesDiffer()
    ensures forall p: int, q: int :: KnownMode(p) && KnownMode(q) && QuantizationName(p) == QuantizationName(q) ==> p == q
    ensures forall p: int :: !KnownMode(p) ==> QuantizationName(p) == QuantizationName(0)
  {
    assert "static"[0] == 's' && "dynamic"[0] == 'd' && "auto"[0] == 'a' && "fp16"[0] == 'f' && "none"[0] == 'n';
  }

  /** The list of modes, entry by entry, and the names that stand for the quantizations. */
  lemma ModesAre(a: seq<ModelInfo>, b: seq<ModelInfo>, e: ModelInfo, name: string)
    ensures Modes([], name) == [] && Modes(a + b, name) == Modes(a, name) + Modes(b, name)
    ensures e.name != name ==> Modes([e], name) == []
    ensures e.name == name ==>
              Modes([e], name) == [if e.quantization == 1 then "static" else if e.quantization == 2 then "dynamic"
                                   else if e.quantization == 3 then "auto" else if e.quantization == 4 then "fp16"
                                   else "none"]
  {
    ModesConcat(a, b, name);
    assert [e][1..] == [];
  }

  /** The text of the message: the requested mode by its name, the shown modes separated by a
      comma and a space, and no more than 319 characters. */
  lemma MessageIs(name: string, mode: string, parts: seq<string>, last: string)
    ensures Join([]) == "" && Join([last]) == last && (parts != [] ==> Join(parts + [last]) == Join(parts) + ", " + last)
    ensures var full := "Model '" + name + "' has no '" + mode + "' variant (available: " + Join(parts) + ")";
            && |Truncated(FullMessage(name, mode, Join(parts)))| == (if |full| < 320 then |full| else 319)
            && Truncated(FullMessage(name, mode, Join(parts))) == full[..if |full| < 320 then |full| else 319]
  {
    if parts != [] {
      assert (parts + [last])[..|parts|] == parts;
    }
  }
}
