/**
 * The pure list maintenance of the AI knowledge base
 * (services/memoryService.ts). Persistence to browser storage is not part
 * of the model; every operation here returns the new knowledge base.
 */
module Memory {

  /**
   * The knowledge base. The battle-record type is not among the model's
   * inputs, so it is a type parameter.
   */
  datatype KnowledgeBase<R> = KnowledgeBase(
    battleHistory: seq<R>,
    learnedTactics: seq<string>,
    playerPatterns: seq<string>,
    innovationNotes: seq<string>)

  const MaxBattleHistory: nat := 50
  const MaxTactics: nat := 30
  const MaxPatterns: nat := 30
  const MaxInnovations: nat := 20

  const DeepBattleHistory: nat := 20
  const DeepTactics: nat := 15
  const DeepPatterns: nat := 15
  const DeepInnovations: nat := 10

  function Min(a: nat, b: nat): nat { if a <= b then a else b }

  /** `s.slice(0, n)`: the longest prefix of `s` with at most `n` elements. */
  function Take<T>(s: seq<T>, n: nat): (r: seq<T>)
    ensures |r| == Min(|s|, n)
    ensures r == s[..|r|]
  {
    if |s| <= n then s else s[..n]
  }

  lemma TakeTake<T>(s: seq<T>, m: nat, n: nat)
    requires n <= m
    ensures Take(Take(s, m), n) == Take(s, n)
  {
  }

  /** `cleanupIfNeeded(kb)`: every list cut to its regular cap. */
  function CleanupIfNeeded<R>(kb: KnowledgeBase<R>): (r: KnowledgeBase<R>)
    ensures |r.battleHistory| == Min(|kb.battleHistory|, 50) && r.battleHistory == kb.battleHistory[..|r.battleHistory|]
    ensures |r.learnedTactics| == Min(|kb.learnedTactics|, 30) && r.learnedTactics == kb.learnedTactics[..|r.learnedTactics|]
    ensures |r.playerPatterns| == Min(|kb.playerPatterns|, 30) && r.playerPatterns == kb.playerPatterns[..|r.playerPatterns|]
    ensures |r.innovationNotes| == Min(|kb.innovationNotes|, 20) && r.innovationNotes == kb.innovationNotes[..|r.innovationNotes|]
  {
    KnowledgeBase(
      Take(kb.battleHistory, MaxBattleHistory),
      Take(kb.learnedTactics, MaxTactics),
      Take(kb.playerPatterns, MaxPatterns),
      Take(kb.innovationNotes, MaxInnovations))
  }

  /** `deepCleanup(kb)`: every list cut to its much smaller emergency cap. */
  function DeepCleanup<R>(kb: KnowledgeBase<R>): (r: KnowledgeBase<R>)
    ensures |r.battleHistory| == Min(|kb.battleHistory|, 20) && r.battleHistory == kb.battleHistory[..|r.battleHistory|]
    ensures |r.learnedTactics| == Min(|kb.learnedTactics|, 15) && r.learnedTactics == kb.learnedTactics[..|r.learnedTactics|]
    ensures |r.playerPatterns| == Min(|kb.playerPatterns|, 15) && r.playerPatterns == kb.playerPatterns[..|r.playerPatterns|]
    ensures |r.innovationNotes| == Min(|kb.innovationNotes|, 10) && r.innovationNotes == kb.innovationNotes[..|r.innovationNotes|]
  {
    KnowledgeBase(
      Take(kb.battleHistory, DeepBattleHistory),
      Take(kb.learnedTactics, DeepTactics),
      Take(kb.playerPatterns, DeepPatterns),
      Take(kb.innovationNotes, DeepInnovations))
  }

  /** The save path's deep cleanup of the regularly cleaned base loses nothing more than a deep cleanup alone. */
  lemma DeepCleanupAfterCleanup<R>(kb: KnowledgeBase<R>)
    ensures DeepCleanup(CleanupIfNeeded(kb)) == DeepCleanup(kb)
  {
    TakeTake(kb.battleHistory, 50, 20);
    TakeTake(kb.learnedTactics, 30, 15);
    TakeTake(kb.playerPatterns, 30, 15);
    TakeTake(kb.innovationNotes, 20, 10);
  }

  lemma CleanupIdempotent<R>(kb: KnowledgeBase<R>)
    ensures CleanupIfNeeded(CleanupIfNeeded(kb)) == CleanupIfNeeded(kb)
  {
    TakeTake(kb.battleHistory, 50, 50);
    TakeTake(kb.learnedTactics, 30, 30);
    TakeTake(kb.playerPatterns, 30, 30);
    TakeTake(kb.innovationNotes, 20, 20);
  }

  /** `addBattleRecord(kb, record)`: newest record first, at most 50 kept. */
  function AddBattleRecord<R>(kb: KnowledgeBase<R>, record: R): (r: KnowledgeBase<R>)
    ensures |r.battleHistory| == Min(|kb.battleHistory| + 1, 50)
    ensures r.battleHistory[0] == record
    ensures r.battleHistory[1..] == kb.battleHistory[..|r.battleHistory| - 1]
    ensures r.learnedTactics == kb.learnedTactics
    ensures r.playerPatterns == kb.playerPatterns
    ensures r.innovationNotes == kb.innovationNotes
  {
    kb.(battleHistory := Take([record] + kb.battleHistory, MaxBattleHistory))
  }

  /**
   * The characters JavaScript's `String.prototype.trim` removes: the
   * WhiteSpace and LineTerminator code points of ECMAScript.
   */
  predicate IsJsSpace(c: char) {
    || c == '\t' || c == '\n' || c == '\U{000B}' || c == '\U{000C}' || c == '\r' || c == ' '
    || c == '\U{00A0}' || c == '\U{1680}' || ('\U{2000}' <= c <= '\U{200A}')
    || c == '\U{2028}' || c == '\U{2029}' || c == '\U{202F}' || c == '\U{205F}'
    || c == '\U{3000}' || c == '\U{FEFF}'
  }

  function TrimStart(s: string): (r: string)
    ensures |r| <= |s| && r == s[|s| - |r|..]
    ensures |r| > 0 ==> !IsJsSpace(r[0])
    ensures |r| == 0 <==> forall i :: 0 <= i < |s| ==> IsJsSpace(s[i])
  {
    if |s| > 0 && IsJsSpace(s[0]) then TrimStart(s[1..]) else s
  }

  function TrimEnd(s: string): (r: string)
    ensures |r| <= |s| && r == s[..|r|]
    ensures |s| > 0 && !IsJsSpace(s[0]) ==> |r| > 0
  {
    if |s| > 0 && IsJsSpace(s[|s| - 1]) then TrimEnd(s[..|s| - 1]) else s
  }

  /** `s.trim()`. */
  function Trim(s: string): string {
    TrimEnd(TrimStart(s))
  }

  /** `!s || s.trim().length === 0`. */
  predicate IsBlank(s: string) {
    |Trim(s)| == 0
  }

  /** A string is blank exactly when every character of it is white space (the empty string included). */
  lemma IsBlankIff(s: string)
    ensures IsBlank(s) <==> forall i :: 0 <= i < |s| ==> IsJsSpace(s[i])
  {
  }

  /** The de-duplicating append shared by the tactic and pattern lists. */
  function AppendDistinct(list: seq<string>, entry: string, cap: nat): (r: seq<string>)
    ensures IsBlank(entry) || entry in list ==> r == list
    ensures !IsBlank(entry) && entry !in list && |list| < cap ==> r == list + [entry]
    ensures !IsBlank(entry) && entry !in list && |list| >= cap ==> r == list[..cap]
  {
    if IsBlank(entry) || entry in list then list else Take(list + [entry], cap)
  }

  predicate NoDuplicates(s: seq<string>) {
    forall i, j :: 0 <= i < j < |s| ==> s[i] != s[j]
  }

  lemma AppendDistinctKeepsNoDuplicates(list: seq<string>, entry: string, cap: nat)
    requires NoDuplicates(list)
    ensures NoDuplicates(AppendDistinct(list, entry, cap))
  {
    var r := AppendDistinct(list, entry, cap);
    if !IsBlank(entry) && entry !in list && |list| < cap {
      forall i, j | 0 <= i < j < |r|
        ensures r[i] != r[j]
      {
        if j == |list| {
          assert r[i] == list[i];
        }
      }
    }
  }

  /** `addLearnedTactic(kb, tactic)`. */
  function AddLearnedTactic<R>(kb: KnowledgeBase<R>, tactic: string): (r: KnowledgeBase<R>)
    ensures IsBlank(tactic) || tactic in kb.learnedTactics ==> r == kb
    ensures r.learnedTactics == AppendDistinct(kb.learnedTactics, tactic, 30)
    ensures r.battleHistory == kb.battleHistory && r.playerPatterns == kb.playerPatterns
      && r.innovationNotes == kb.innovationNotes
  {
    if IsBlank(tactic) || tactic in kb.learnedTactics then kb
    else kb.(learnedTactics := AppendDistinct(kb.learnedTactics, tactic, MaxTactics))
  }

  /** `addPlayerPattern(kb, pattern)`. */
  function AddPlayerPattern<R>(kb: KnowledgeBase<R>, pattern: string): (r: KnowledgeBase<R>)
    ensures IsBlank(pattern) || pattern in kb.playerPatterns ==> r == kb
    ensures r.playerPatterns == AppendDistinct(kb.playerPatterns, pattern, 30)
    ensures r.battleHistory == kb.battleHistory && r.learnedTactics == kb.learnedTactics
      && r.innovationNotes == kb.innovationNotes
  {
    if IsBlank(pattern) || pattern in kb.playerPatterns then kb
    else kb.(playerPatterns := AppendDistinct(kb.playerPatterns, pattern, MaxPatterns))
  }

  /**
   * A full tactic list silently drops a new tactic: the append happens
   * before the cut, so the cut keeps only old entries.
   */
  lemma FullTacticListUnchanged<R>(kb: KnowledgeBase<R>, tactic: string)
    requires |kb.learnedTactics| >= 30
    ensures var r := AddLearnedTactic(kb, tactic).learnedTactics;
      r == kb.learnedTactics[..|r|] && (tactic in r ==> tactic in kb.learnedTactics)
    ensures |kb.learnedTactics| == 30 ==> AddLearnedTactic(kb, tactic) == kb
  {
  }

  /** `addInnovation(kb, innovation)`: newest first, at most 20, duplicates allowed. */
  function AddInnovation<R>(kb: KnowledgeBase<R>, innovation: string): (r: KnowledgeBase<R>)
    ensures IsBlank(innovation) ==> r == kb
    ensures !IsBlank(innovation) ==>
      && |r.innovationNotes| == Min(|kb.innovationNotes| + 1, 20)
      && r.innovationNotes[0] == innovation
      && r.innovationNotes[1..] == kb.innovationNotes[..|r.innovationNotes| - 1]
    ensures r.battleHistory == kb.battleHistory && r.learnedTactics == kb.learnedTactics
      && r.playerPatterns == kb.playerPatterns
  {
    if IsBlank(innovation) then kb
    else kb.(innovationNotes := Take([innovation] + kb.innovationNotes, MaxInnovations))
  }

  /** Adding the same innovation twice stores it twice. */
  lemma InnovationNotDeduplicated<R>(kb: KnowledgeBase<R>, innovation: string)
    requires !IsBlank(innovation)
    ensures var notes := AddInnovation(AddInnovation(kb, innovation), innovation).innovationNotes;
      |notes| >= 2 && notes[0] == notes[1] == innovation
  {
    var once := AddInnovation(kb, innovation);
    assert once.innovationNotes[0] == innovation;
  }

  /** A parsed JSON value, as `JSON.parse` can produce it. */
  datatype Json =
    | JNull
    | JBool(b: bool)
    | JNum(n: real)
    | JStr(s: string)
    | JArr(elems: seq<Json>)
    | JObj(fields: map<string, Json>)

  /** JavaScript truthiness of a JSON value. */
  predicate Truthy(j: Json) {
    match j
    case JNull => false
    case JBool(b) => b
    case JNum(n) => n != 0.0
    case JStr(s) => |s| > 0
    case JArr(_) => true
    case JObj(_) => true
  }

  /** `Array.isArray(j[key])`; a missing property (also of a non-object) reads as undefined. */
  predicate IsArrayField(j: Json, key: string) {
    j.JObj? && key in j.fields && j.fields[key].JArr?
  }

  /** `validateKnowledgeBase(kb)`. */
  predicate ValidateKnowledgeBase(j: Json) {
    Truthy(j)
    && IsArrayField(j, "battleHistory")
    && IsArrayField(j, "learnedTactics")
    && IsArrayField(j, "playerPatterns")
    && IsArrayField(j, "innovationNotes")
  }

  /**
   * A parsed value passes exactly when it is an object whose four list
   * properties are arrays; the element types are not inspected.
   */
  lemma ValidateKnowledgeBaseIff(j: Json)
    ensures ValidateKnowledgeBase(j) <==>
      j.JObj? &&
      (forall key :: key in ["battleHistory", "learnedTactics", "playerPatterns", "innovationNotes"] ==>
        key in j.fields && j.fields[key].JArr?)
  {
    if j.JObj? &&
      (forall key :: key in ["battleHistory", "learnedTactics", "playerPatterns", "innovationNotes"] ==>
        key in j.fields && j.fields[key].JArr?) {
      assert IsArrayField(j, "battleHistory");
      assert "learnedTactics" in ["battleHistory", "learnedTactics", "playerPatterns", "innovationNotes"];
      assert "playerPatterns" in ["battleHistory", "learnedTactics", "playerPatterns", "innovationNotes"];
      assert "innovationNotes" in ["battleHistory", "learnedTactics", "playerPatterns", "innovationNotes"];
    }
  }

  /** An array of numbers where strings are expected still passes. */
  lemma ValidateIgnoresElementTypes()
    ensures ValidateKnowledgeBase(JObj(map[
      "battleHistory" := JArr([]),
      "learnedTactics" := JArr([JNum(1.0)]),
      "playerPatterns" := JArr([]),
      "innovationNotes" := JArr([])]))
  {
  }
}
