/**
 Security options: the backend check (src/core/src/execution.rs), their translation into a
 guest security profile and its transport to guest-init (src/core/src/security.rs).
 */
module Security {
  import opened Text

  datatype SeccompMode = Default | Unconfined | Custom(path: string)

  datatype SecurityConfig = SecurityConfig(seccomp: SeccompMode, noNewPrivileges: bool, capAdd: seq<string>,
    capDrop: seq<string>, privileged: bool)

  const DEFAULT_CONFIG := SecurityConfig(Default, true, [], [], false)

  const PRIVILEGED_CONFIG := SecurityConfig(Unconfined, false, ["ALL"], [], true)

  datatype Backend = Microvm | Sandbox

  // ----- Reading an option -----

  /** Unicode White_Space, the characters `trim` removes. */
  predicate IsWhite(c: char) {
    || '\t' <= c <= '\r' || c == ' ' || c == '\U{85}' || c == '\U{A0}' || c == '\U{1680}'
    || '\U{2000}' <= c <= '\U{200A}' || c == '\U{2028}' || c == '\U{2029}' || c == '\U{202F}' || c == '\U{205F}'
    || c == '\U{3000}'
  }

  predicate IsTrimmed(s: string) {
    s != "" ==> !IsWhite(s[0]) && !IsWhite(s[|s| - 1])
  }

  predicate AllWhite(s: string) {
    forall i | 0 <= i < |s| :: IsWhite(s[i])
  }

  function TrimEnd(s: string): (r: string)
    ensures r <= s && (r != "" ==> !IsWhite(r[|r| - 1]))
    ensures IsTrimmed(s) ==> r == s
    ensures AllWhite(s[|r|..])
  {
    if s != "" && IsWhite(s[|s| - 1]) then TrimEnd(s[..|s| - 1]) else s
  }

  function Trim(s: string): (r: string)
    ensures IsTrimmed(r)
    ensures IsTrimmed(s) <==> r == s
  {
    if s != "" && IsWhite(s[0]) then Trim(s[1..]) else TrimEnd(s)
  }

  lemma MoveOn(s: string, i: nat, j: nat)
    requires s != "" && IsWhite(s[0]) && i <= j < |s| && AllWhite(s[1..][..i])
    ensures s[1..][i..j] == s[i + 1..j + 1] && s[1..][j..] == s[j + 1..] && AllWhite(s[..i + 1])
  {
    assert s[..i + 1] == [s[0]] + s[1..][..i];
  }

  /** Only white space is removed, from the two ends. */
  lemma {:induction false} TrimShape(s: string) returns (i: nat, j: nat)
    ensures i <= j <= |s| && Trim(s) == s[i..j] && AllWhite(s[..i]) && AllWhite(s[j..])
  {
    if s != "" && IsWhite(s[0]) {
      i, j := TrimShape(s[1..]);
      MoveOn(s, i, j);
      i, j := i + 1, j + 1;
    } else {
      i, j := 0, |TrimEnd(s)|;
      assert s[0..j] == TrimEnd(s);
    }
  }

  function LowerChar(c: char): char {
    if 'A' <= c <= 'Z' then (c as int + 32) as char else c
  }

  function Lower(s: string): string {
    seq(|s|, i requires 0 <= i < |s| => LowerChar(s[i]))
  }

  const NO_NEW_PRIVILEGES := "no-new-privileges"

  const SECCOMP := "seccomp"

  /** `eq_ignore_ascii_case` against a lower-case word. */
  predicate Is(s: string, word: string) {
    Lower(s) == word
  }

  datatype Setting = SetSeccomp(mode: SeccompMode) | SetNoNewPrivileges(on: bool)

  /** What an option asks for; `None` when it asks for nothing the guest can enforce. */
  function Meaning(raw: string): Option<Setting> {
    var option := Trim(raw);
    if Is(option, NO_NEW_PRIVILEGES) then Some(SetNoNewPrivileges(true)) else
    var split := SplitOnce(option, "=");
    if split.None? then None else
    var key, value := Trim(split.value.before), Trim(split.value.after);
    if Is(key, SECCOMP) then
      Some(SetSeccomp(
        if Is(value, "default") then Default else if Is(value, "unconfined") then Unconfined else Custom(value)))
    else if Is(key, NO_NEW_PRIVILEGES) then
      if Is(value, "true") then Some(SetNoNewPrivileges(true))
      else if Is(value, "false") then Some(SetNoNewPrivileges(false))
      else None
    else None
  }

  // What an option means, by its words.

  /** The same letters, whatever their case. */
  predicate Matches(s: string, word: string) {
    && |s| == |word|
    && forall i | 0 <= i < |s| :: s[i] == word[i] || ('a' <= word[i] <= 'z' && s[i] as int + 32 == word[i] as int)
  }

  predicate NoUpper(word: string) {
    forall i | 0 <= i < |word| :: !('A' <= word[i] <= 'Z')
  }

  lemma IsMatches(s: string, word: string)
    requires NoUpper(word)
    ensures Is(s, word) <==> Matches(s, word)
  {
    if Is(s, word) {
      forall i | 0 <= i < |s|
        ensures s[i] == word[i] || ('a' <= word[i] <= 'z' && s[i] as int + 32 == word[i] as int)
      {
        assert word[i] == LowerChar(s[i]);
      }
    }
    if Matches(s, word) {
      assert Lower(s) == word;
    }
  }

  /** The meaning of `key=value`, where the key ends at the first equals sign. */
  predicate IsPairMeaning(meaning: Option<Setting>, key: string, value: string) {
    if Matches(key, "seccomp") then
      if Matches(value, "default") then meaning == Some(SetSeccomp(Default))
      else if Matches(value, "unconfined") then meaning == Some(SetSeccomp(Unconfined))
      else meaning == Some(SetSeccomp(Custom(value)))
    else if Matches(key, "no-new-privileges") && Matches(value, "true") then
      meaning == Some(SetNoNewPrivileges(true))
    else if Matches(key, "no-new-privileges") && Matches(value, "false") then
      meaning == Some(SetNoNewPrivileges(false))
    else
      meaning == None
  }

  lemma PairMeaning(key: string, value: string, meaning: Option<Setting>)
    requires meaning ==
      if Is(key, SECCOMP) then
        Some(SetSeccomp(
          if Is(value, "default") then Default else if Is(value, "unconfined") then Unconfined else Custom(value)))
      else if Is(key, NO_NEW_PRIVILEGES) then
        if Is(value, "true") then Some(SetNoNewPrivileges(true))
        else if Is(value, "false") then Some(SetNoNewPrivileges(false))
        else None
      else None
    ensures IsPairMeaning(meaning, key, value)
  {
    IsMatches(key, SECCOMP);
    IsMatches(key, NO_NEW_PRIVILEGES);
    IsMatches(value, "default");
    IsMatches(value, "unconfined");
    IsMatches(value, "true");
    IsMatches(value, "false");
  }

  lemma FirstEquals(option: string, key: string, value: string)
    requires option == key + "=" + value && '=' !in key
    ensures SplitOnce(option, "=") == Some(Pair(key, value)) && !Is(option, NO_NEW_PRIVILEGES)
  {
    forall i: nat | i < |key|
      ensures !OccursAt(option, "=", i)
    {
      assert option[i..i + 1][0] == key[i];
    }
    SplitOnceAt(key, "=", value);
    assert Lower(option)[|key|] == '=';
  }

  /** What a pair means is decided by the words on both sides of its first equals sign. */
  lemma MeaningOfPair(raw: string, key: string, value: string)
    requires Trim(raw) == key + "=" + value && '=' !in key
    ensures IsPairMeaning(Meaning(raw), Trim(key), Trim(value))
  {
    FirstEquals(Trim(raw), key, value);
    PairMeaning(Trim(key), Trim(value), Meaning(raw));
  }

  lemma {:induction false} NothingToSplit(s: string, c: char)
    requires c !in s
    ensures SplitOnce(s, [c]) == None
  {
    if s != "" {
      NothingToSplit(s[1..], c);
    }
  }

  /** Without an equals sign there is one option. */
  lemma MeaningOfWord(raw: string)
    requires '=' !in Trim(raw)
    ensures Meaning(raw) == if Matches(Trim(raw), "no-new-privileges") then Some(SetNoNewPrivileges(true)) else None
  {
    IsMatches(Trim(raw), NO_NEW_PRIVILEGES);
    NothingToSplit(Trim(raw), '=');
  }

  // ----- The backend check -----

  predicate Supported(backend: Backend, setting: Setting) {
    match setting
    case SetSeccomp(mode) => mode == Default || (mode == Unconfined && backend == Microvm)
    case SetNoNewPrivileges(on) => on || backend == Microvm
  }

  predicate Accepts(backend: Backend, option: string) {
    Meaning(option).Some? && Supported(backend, Meaning(option).value)
  }

  predicate AllHold(p: string -> bool, options: seq<string>) {
    forall i | 0 <= i < |options| :: p(options[i])
  }

  predicate AllAccepted(backend: Backend, options: seq<string>) {
    AllHold(option => Accepts(backend, option), options)
  }

  datatype Rejection =
    | EmptyOption | Unsupported | UnconfinedSeccomp | MissingSeccompMode | CustomSeccomp(profile: string)
    | NoNewPrivilegesRequired | NeitherTrueNorFalse(value: string) | AppArmor | SelinuxLabel

  predicate HasKey(option: string, word: string) {
    var split := SplitOnce(Trim(option), "=");
    split.Some? && Is(Trim(split.value.before), word)
  }

  /** A rejection for a setting names that setting; every other one is for an option without meaning. */
  predicate Explains(rejection: Rejection, option: string) {
    match rejection
    case UnconfinedSeccomp => Meaning(option) == Some(SetSeccomp(Unconfined))
    case MissingSeccompMode => Meaning(option) == Some(SetSeccomp(Custom("")))
    case CustomSeccomp(profile) => profile != "" && Meaning(option) == Some(SetSeccomp(Custom(profile)))
    case NoNewPrivilegesRequired => Meaning(option) == Some(SetNoNewPrivileges(false))
    case EmptyOption => Meaning(option) == None && Trim(option) == ""
    case AppArmor => Meaning(option) == None && HasKey(option, "apparmor")
    case SelinuxLabel => Meaning(option) == None && HasKey(option, "label")
    case NeitherTrueNorFalse(value) =>
      && Meaning(option) == None && HasKey(option, "no-new-privileges")
      && value == Trim(SplitOnce(Trim(option), "=").value.after)
    case Unsupported =>
      && Meaning(option) == None && Trim(option) != ""
      && !HasKey(option, "apparmor") && !HasKey(option, "label") && !HasKey(option, "no-new-privileges")
  }

  /** One pass of the check: the reason to reject the option, if any. */
  method CheckOption(backend: Backend, raw: string) returns (rejection: Option<Rejection>)
    ensures rejection == None <==> Accepts(backend, raw)
    ensures rejection.Some? ==> Explains(rejection.value, raw)
  {
    var option := Trim(raw);
    if option == "" {
      return Some(EmptyOption);
    }
    if Is(option, NO_NEW_PRIVILEGES) {
      return None;
    }
    var split := SplitOnce(option, "=");
    if split.None? {
      return Some(Unsupported);
    }
    var key, value := Trim(split.value.before), Trim(split.value.after);
    if Is(key, SECCOMP) {
      if Is(value, "default") {
        return None;
      }
      if Is(value, "unconfined") {
        return if backend == Microvm then None else Some(UnconfinedSeccomp);
      }
      if value == "" {
        return Some(MissingSeccompMode);
      }
      return Some(CustomSeccomp(value));
    }
    if Is(key, NO_NEW_PRIVILEGES) {
      if Is(value, "true") {
        return None;
      }
      if Is(value, "false") {
        return if backend == Microvm then None else Some(NoNewPrivilegesRequired);
      }
      return Some(NeitherTrueNorFalse(value));
    }
    if Is(key, "apparmor") {
      return Some(AppArmor);
    }
    if Is(key, "label") {
      return Some(SelinuxLabel);
    }
    return Some(Unsupported);
  }

  /** The option is refused for that reason, and all before it are accepted. */
  predicate IsFirstRefused(backend: Backend, options: seq<string>, i: nat, rejection: Rejection) {
    && i < |options| && !Accepts(backend, options[i]) && Explains(rejection, options[i])
    && AllAccepted(backend, options[..i])
  }

  /** `validate_security_options`: accepts exactly when every option is accepted; else blames the first that is not. */
  method ValidateSecurityOptions(backend: Backend, options: seq<string>) returns (rejection: Option<Rejection>)
    ensures rejection == None <==> AllAccepted(backend, options)
    ensures rejection.Some? ==> exists i: nat :: IsFirstRefused(backend, options, i, rejection.value)
  {
    for i := 0 to |options|
      invariant AllAccepted(backend, options[..i])
    {
      rejection := CheckOption(backend, options[i]);
      if rejection.Some? {
        assert IsFirstRefused(backend, options, i, rejection.value);
        return;
      }
      AcceptedOneMore(backend, options, i);
    }
    assert options[..|options|] == options;
    rejection := None;
  }

  lemma AcceptedOneMore(backend: Backend, options: seq<string>, i: nat)
    requires i < |options| && AllAccepted(backend, options[..i]) && Accepts(backend, options[i])
    ensures AllAccepted(backend, options[..i + 1])
  {
    assert options[..i + 1] == options[..i] + [options[i]];
    AllHoldOneMore(option => Accepts(backend, option), options[..i], options[i]);
  }

  lemma AllHoldOneMore(p: string -> bool, options: seq<string>, option: string)
    requires AllHold(p, options) && p(option)
    ensures AllHold(p, options + [option])
  {
  }

  // ----- The translation -----

  function Meanings(options: seq<string>): (r: seq<Option<Setting>>)
    ensures |r| == |options|
  {
    seq(|options|, i requires 0 <= i < |options| => Meaning(options[i]))
  }

  /** The last seccomp option decides; without one the profile is the default. */
  function LastSeccomp(settings: seq<Option<Setting>>): SeccompMode {
    if settings == [] then Default else
    match settings[|settings| - 1]
    case Some(SetSeccomp(mode)) => mode
    case _ => LastSeccomp(settings[..|settings| - 1])
  }

  /** The last no-new-privileges option decides; without one it is on. */
  function LastNoNewPrivileges(settings: seq<Option<Setting>>): bool {
    if settings == [] then true else
    match settings[|settings| - 1]
    case Some(SetNoNewPrivileges(on)) => on
    case _ => LastNoNewPrivileges(settings[..|settings| - 1])
  }

  function Translate(options: seq<string>, capAdd: seq<string>, capDrop: seq<string>, privileged: bool): SecurityConfig
  {
    if privileged then PRIVILEGED_CONFIG
    else
      var settings := Meanings(options);
      SecurityConfig(LastSeccomp(settings), LastNoNewPrivileges(settings), capAdd, capDrop, false)
  }

  /** `from_options`. */
  method FromOptions(options: seq<string>, capAdd: seq<string>, capDrop: seq<string>, privileged: bool)
    returns (config: SecurityConfig)
    ensures config == Translate(options, capAdd, capDrop, privileged)
    ensures privileged ==> config == SecurityConfig(Unconfined, false, ["ALL"], [], true)
    ensures !privileged ==> config.capAdd == capAdd && config.capDrop == capDrop && !config.privileged
    ensures !privileged && (forall m | m in Meanings(options) :: !SetsSeccomp(m)) ==> config.seccomp == Default
    ensures !privileged && (forall m | m in Meanings(options) :: !SetsNoNewPrivileges(m)) ==> config.noNewPrivileges
  {
    if privileged {
      return PRIVILEGED_CONFIG;
    }
    config := DEFAULT_CONFIG.(capAdd := capAdd, capDrop := capDrop);
    for i := 0 to |options|
      invariant config == Translate(options[..i], capAdd, capDrop, false)
    {
      assert Meanings(options[..i + 1])[..i] == Meanings(options[..i]);
      config := ApplyOption(config, options[i]);
    }
    assert options[..|options|] == options;
    UnsetIsDefault(Meanings(options));
  }

  /** One pass of the translation. */
  function ApplyOption(config: SecurityConfig, raw: string): (r: SecurityConfig)
    ensures r == match Meaning(raw)
      case Some(SetSeccomp(mode)) => config.(seccomp := mode)
      case Some(SetNoNewPrivileges(on)) => config.(noNewPrivileges := on)
      case None => config
  {
    var option := Trim(raw);
    if Is(option, NO_NEW_PRIVILEGES) then config.(noNewPrivileges := true) else
    var split := SplitOnce(option, "=");
    if split.None? then config else
    var key, value := Trim(split.value.before), Trim(split.value.after);
    if Is(key, SECCOMP) then
      config.(seccomp :=
        if Is(value, "default") then Default else if Is(value, "unconfined") then Unconfined else Custom(value))
    else if Is(key, NO_NEW_PRIVILEGES) then
      if Is(value, "true") then config.(noNewPrivileges := true)
      else if Is(value, "false") then config.(noNewPrivileges := false)
      else config
    else config
  }

  /** `SecurityConfig::validate`. */
  predicate Enforceable(config: SecurityConfig) {
    !config.seccomp.Custom?
  }

  predicate SetsSeccomp(setting: Option<Setting>) {
    setting.Some? && setting.value.SetSeccomp?
  }

  predicate SetsNoNewPrivileges(setting: Option<Setting>) {
    setting.Some? && setting.value.SetNoNewPrivileges?
  }

  /** A seccomp option is in force unless a later one overrides it, wherever it stands. */
  lemma {:induction false} LastSeccompWins(settings: seq<Option<Setting>>, i: nat)
    requires i < |settings| && SetsSeccomp(settings[i])
    requires forall j | i < j < |settings| :: !SetsSeccomp(settings[j])
    ensures LastSeccomp(settings) == settings[i].value.mode
  {
    if i < |settings| - 1 {
      LastSeccompWins(settings[..|settings| - 1], i);
    }
  }

  lemma {:induction false} LastNoNewPrivilegesWins(settings: seq<Option<Setting>>, i: nat)
    requires i < |settings| && SetsNoNewPrivileges(settings[i])
    requires forall j | i < j < |settings| :: !SetsNoNewPrivileges(settings[j])
    ensures LastNoNewPrivileges(settings) == settings[i].value.on
  {
    if i < |settings| - 1 {
      LastNoNewPrivilegesWins(settings[..|settings| - 1], i);
    }
  }

  lemma {:induction false} UnsetIsDefault(settings: seq<Option<Setting>>)
    ensures (forall m | m in settings :: !SetsSeccomp(m)) ==> LastSeccomp(settings) == Default
    ensures (forall m | m in settings :: !SetsNoNewPrivileges(m)) ==> LastNoNewPrivileges(settings)
  {
    if settings != [] {
      assert settings[|settings| - 1] in settings;
      UnsetIsDefault(settings[..|settings| - 1]);
    }
  }

  lemma {:induction false} SupportedIsEnforceable(backend: Backend, settings: seq<Option<Setting>>)
    requires forall i | 0 <= i < |settings| :: settings[i].Some? && Supported(backend, settings[i].value)
    ensures !LastSeccomp(settings).Custom?
    ensures backend == Sandbox ==> LastSeccomp(settings) == Default && LastNoNewPrivileges(settings)
  {
    if settings != [] {
      SupportedIsEnforceable(backend, settings[..|settings| - 1]);
    }
  }

  /** What the check accepts the guest can enforce, and in the sandbox nothing weakens the hardening. */
  lemma AcceptedIsEnforceable(backend: Backend, options: seq<string>, capAdd: seq<string>, capDrop: seq<string>,
    privileged: bool)
    requires AllAccepted(backend, options)
    ensures Enforceable(Translate(options, capAdd, capDrop, privileged))
    ensures backend == Sandbox && !privileged ==>
      Translate(options, capAdd, capDrop, privileged) == DEFAULT_CONFIG.(capAdd := capAdd, capDrop := capDrop)
  {
    forall i | 0 <= i < |options|
      ensures Meanings(options)[i].Some? && Supported(backend, Meanings(options)[i].value)
    {
      assert Accepts(backend, options[i]);
    }
    SupportedIsEnforceable(backend, Meanings(options));
  }

  /**
   For a MicroVM the check is exact: it refuses precisely the lists with an option that the
   translation would skip or that asks for a custom profile.
   */
  lemma MicrovmRefusesExactly(options: seq<string>)
    ensures AllAccepted(Microvm, options) <==> forall i | 0 <= i < |options| ::
      Meanings(options)[i].Some? && !(SetsSeccomp(Meanings(options)[i]) && Meanings(options)[i].value.mode.Custom?)
  {
    forall i | 0 <= i < |options|
      ensures Accepts(Microvm, options[i]) <==>
        Meanings(options)[i].Some? && !(SetsSeccomp(Meanings(options)[i]) && Meanings(options)[i].value.mode.Custom?)
    {
      assert Meanings(options)[i] == Meaning(options[i]);
    }
  }

  /** In the sandbox it accepts only what asks for the default. */
  lemma SandboxAcceptsExactly(options: seq<string>)
    ensures AllAccepted(Sandbox, options) <==> forall i | 0 <= i < |options| ::
      Meaning(options[i]) in {Some(SetSeccomp(Default)), Some(SetNoNewPrivileges(true))}
  {
    assert forall i | 0 <= i < |options| :: Accepts(Sandbox, options[i]) <==>
      Meaning(options[i]) in {Some(SetSeccomp(Default)), Some(SetNoNewPrivileges(true))};
  }

  // ----- Transport to the guest -----

  datatype Variable = Variable(key: string, value: string)

  const KEY_SECCOMP := "A3S_SEC_SECCOMP"
  const KEY_NO_NEW_PRIVS := "A3S_SEC_NO_NEW_PRIVS"
  const KEY_PRIVILEGED := "A3S_SEC_PRIVILEGED"
  const KEY_CAP_ADD := "A3S_SEC_CAP_ADD"
  const KEY_CAP_DROP := "A3S_SEC_CAP_DROP"
  const CUSTOM_PREFIX := "custom:"

  function SeccompValue(mode: SeccompMode): string {
    match mode
    case Default => "default"
    case Unconfined => "unconfined"
    case Custom(path) => CUSTOM_PREFIX + path
  }

  function ParseSeccomp(value: string): SeccompMode {
    if value == "unconfined" then Unconfined
    else if value == "default" then Default
    else
      var path := StripPrefix(value, CUSTOM_PREFIX);
      if path.Some? then Custom(path.value) else Default
  }

  function TrimAll(items: seq<string>): seq<string> {
    seq(|items|, i requires 0 <= i < |items| => Trim(items[i]))
  }

  function PushIf(condition: bool, key: string, value: string): (pushed: seq<Variable>)
    ensures |pushed| <= 1
  {
    if condition then [Variable(key, value)] else []
  }

  /** `to_env_vars`. */
  function ToEnvVars(config: SecurityConfig): seq<Variable> {
    PushIf(true, KEY_SECCOMP, SeccompValue(config.seccomp))
    + PushIf(true, KEY_NO_NEW_PRIVS, if config.noNewPrivileges then "1" else "0")
    + PushIf(config.privileged, KEY_PRIVILEGED, "1")
    + PushIf(config.capAdd != [], KEY_CAP_ADD, Join(config.capAdd, ','))
    + PushIf(config.capDrop != [], KEY_CAP_DROP, Join(config.capDrop, ','))
  }

  /** The value a process started with these variables sees. */
  function Lookup(env: seq<Variable>, key: string): Option<string> {
    if env == [] then None
    else
      var last := |env| - 1;
      if env[last].key == key then Some(env[last].value) else Lookup(env[..last], key)
  }

  function ParseCaps(value: Option<string>): seq<string> {
    if value.Some? then TrimAll(Split(value.value, ',')) else []
  }

  /** `from_env_vars`. */
  function FromEnvVars(env: seq<Variable>): SecurityConfig {
    if Lookup(env, KEY_PRIVILEGED) == Some("1") then PRIVILEGED_CONFIG
    else
      var seccomp := Lookup(env, KEY_SECCOMP);
      var noNewPrivs := Lookup(env, KEY_NO_NEW_PRIVS);
      SecurityConfig(
        if seccomp.Some? then ParseSeccomp(seccomp.value) else Default,
        if noNewPrivs.Some? then noNewPrivs.value == "1" else true,
        ParseCaps(Lookup(env, KEY_CAP_ADD)),
        ParseCaps(Lookup(env, KEY_CAP_DROP)),
        false)
  }

  lemma LookupPush(env: seq<Variable>, v: Variable, key: string)
    ensures Lookup(env + [v], key) == if v.key == key then Some(v.value) else Lookup(env, key)
  {
    assert (env + [v])[..|env|] == env;
  }

  /** The value of a key once `pushed`, at most one variable, follows an environment with value `below`. */
  function Over(pushed: seq<Variable>, key: string, below: Option<string>): Option<string> {
    if pushed != [] && pushed[0].key == key then Some(pushed[0].value) else below
  }

  lemma LookupOver(env: seq<Variable>, pushed: seq<Variable>, key: string)
    requires |pushed| <= 1
    ensures Lookup(env + pushed, key) == Over(pushed, key, Lookup(env, key))
  {
    if pushed == [] {
      assert env + pushed == env;
    } else {
      assert pushed == [pushed[0]];
      LookupPush(env, pushed[0], key);
    }
  }

  lemma LookupChain(a: seq<Variable>, b: seq<Variable>, c: seq<Variable>, d: seq<Variable>, e: seq<Variable>,
    key: string)
    requires |a| <= 1 && |b| <= 1 && |c| <= 1 && |d| <= 1 && |e| <= 1
    ensures Lookup(a + b + c + d + e, key) == Over(e, key, Over(d, key, Over(c, key, Over(b, key, Over(a, key, None)))))
  {
    LookupOver([], a, key);
    assert [] + a == a;
    LookupOver(a, b, key);
    LookupOver(a + b, c, key);
    LookupOver(a + b + c, d, key);
    LookupOver(a + b + c + d, e, key);
  }

  // ----- The round trip -----

  /** A capability name that survives the comma-separated list. */
  predicate Clean(cap: string) {
    ',' !in cap && IsTrimmed(cap)
  }

  predicate AllClean(caps: seq<string>) {
    forall i | 0 <= i < |caps| :: Clean(caps[i])
  }

  /** The capability list survives exactly when every name is free of commas and outer white space. */
  lemma CapsRoundTrip(caps: seq<string>)
    requires caps != []
    ensures TrimAll(Split(Join(caps, ','), ',')) == caps <==> AllClean(caps)
  {
    SplitJoin(caps, ',');
    SplitEachLength(caps, ',');
    if Free(caps, ',') {
      assert TrimAll(caps) == caps <==> forall i | 0 <= i < |caps| :: TrimAll(caps)[i] == caps[i];
      assert forall i | 0 <= i < |caps| :: TrimAll(caps)[i] == caps[i] <==> IsTrimmed(caps[i]);
    }
  }

  lemma {:induction false} SeccompRoundTrip(mode: SeccompMode)
    ensures ParseSeccomp(SeccompValue(mode)) == mode
  {
    if mode.Custom? {
      var value := SeccompValue(mode);
      assert value[0] == 'c' && value[|CUSTOM_PREFIX|..] == mode.path;
      assert "unconfined"[0] == 'u' && "default"[0] == 'd';
    }
  }

  lemma KeysDiffer()
    ensures |KEY_SECCOMP| == |KEY_CAP_ADD| < |KEY_CAP_DROP| < |KEY_PRIVILEGED| < |KEY_NO_NEW_PRIVS|
    ensures KEY_SECCOMP != KEY_CAP_ADD
  {
    assert KEY_SECCOMP[8] == 'S' && KEY_CAP_ADD[8] == 'C';
  }

  /** What the guest finds under each key. */
  lemma {:induction false} VariablesSeen(config: SecurityConfig)
    ensures var env := ToEnvVars(config);
      && Lookup(env, "A3S_SEC_SECCOMP") ==
           Some(if config.seccomp == Default then "default"
                else if config.seccomp == Unconfined then "unconfined" else "custom:" + config.seccomp.path)
      && Lookup(env, "A3S_SEC_NO_NEW_PRIVS") == Some(if config.noNewPrivileges then "1" else "0")
      && Lookup(env, "A3S_SEC_PRIVILEGED") == (if config.privileged then Some("1") else None)
      && Lookup(env, "A3S_SEC_CAP_ADD") == (if config.capAdd != [] then Some(Join(config.capAdd, ',')) else None)
      && Lookup(env, "A3S_SEC_CAP_DROP") == (if config.capDrop != [] then Some(Join(config.capDrop, ',')) else None)
  {
    KeysDiffer();
    PublishedIsSeen(config, KEY_SECCOMP);
    PublishedIsSeen(config, KEY_NO_NEW_PRIVS);
    PublishedIsSeen(config, KEY_PRIVILEGED);
    PublishedIsSeen(config, KEY_CAP_ADD);
    PublishedIsSeen(config, KEY_CAP_DROP);
  }

  lemma PublishedIsSeen(config: SecurityConfig, key: string)
    ensures Lookup(ToEnvVars(config), key) ==
      if key == KEY_CAP_DROP && config.capDrop != [] then Some(Join(config.capDrop, ','))
      else if key == KEY_CAP_ADD && config.capAdd != [] then Some(Join(config.capAdd, ','))
      else if key == KEY_PRIVILEGED && config.privileged then Some("1")
      else if key == KEY_NO_NEW_PRIVS then Some(if config.noNewPrivileges then "1" else "0")
      else if key == KEY_SECCOMP then Some(SeccompValue(config.seccomp))
      else None
  {
    LookupChain(PushIf(true, KEY_SECCOMP, SeccompValue(config.seccomp)),
      PushIf(true, KEY_NO_NEW_PRIVS, if config.noNewPrivileges then "1" else "0"),
      PushIf(config.privileged, KEY_PRIVILEGED, "1"),
      PushIf(config.capAdd != [], KEY_CAP_ADD, Join(config.capAdd, ',')),
      PushIf(config.capDrop != [], KEY_CAP_DROP, Join(config.capDrop, ',')), key);
  }

  /**
   The guest enforces exactly the profile the host chose: for a privileged box when it is the
   one privileged profile, otherwise when every capability name is clean.
   */
  lemma TransportIsFaithful(config: SecurityConfig)
    ensures FromEnvVars(ToEnvVars(config)) == config <==>
      if config.privileged then config == PRIVILEGED_CONFIG else AllClean(config.capAdd) && AllClean(config.capDrop)
  {
    VariablesSeen(config);
    SeccompRoundTrip(config.seccomp);
    assert "1" != "0";
    if config.capAdd != [] {
      CapsRoundTrip(config.capAdd);
    }
    if config.capDrop != [] {
      CapsRoundTrip(config.capDrop);
    }
  }

  /** From the command line to the guest, for every list of options a MicroVM accepts. */
  lemma AcceptedOptionsReachTheGuest(options: seq<string>, capAdd: seq<string>, capDrop: seq<string>, privileged: bool)
    requires AllAccepted(Microvm, options)
    ensures var config := Translate(options, capAdd, capDrop, privileged);
      && Enforceable(config)
      && (FromEnvVars(ToEnvVars(config)) == config <==> privileged || (AllClean(capAdd) && AllClean(capDrop)))
  {
    AcceptedIsEnforceable(Microvm, options, capAdd, capDrop, privileged);
    TransportIsFaithful(Translate(options, capAdd, capDrop, privileged));
  }
}
