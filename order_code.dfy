/** The six-character order codes shared by the order controller
    (backend/controllers/commandeController.js), the order model's save hook
    (backend/models/CommandeModel.js) and the order page
    (frontend/src/pages/Commandes.jsx).  The alphabet is the 26 capital
    letters followed by the 10 digits; a random draw is an index into it,
    passed in as a parameter. */
module OrderCode {
  import opened Common

  const ALPHABET_SIZE: nat := 36
  const CODE_LENGTH: nat := 6
  const MAX_ATTEMPTS: nat := 10

  predicate IsCodeChar(c: char) {
    'A' <= c <= 'Z' || '0' <= c <= '9'
  }

  /** `/^[A-Z0-9]{6}$/` */
  predicate ValidCode(s: string) {
    |s| == CODE_LENGTH && forall i :: 0 <= i < |s| ==> IsCodeChar(s[i])
  }

  /** `chars.charAt(k)` for `chars = "ABCDEFGHIJKLMNOPQRSTUVWXYZ0123456789"`. */
  function CharAt(k: nat): (c: char)
    requires k < ALPHABET_SIZE
    ensures IsCodeChar(c)
  {
    if k < 26 then ('A' as int + k) as char else ('0' as int + (k - 26)) as char
  }

  /** The position of a code character in the alphabet. */
  function CharIndex(c: char): (k: nat)
    requires IsCodeChar(c)
    ensures k < ALPHABET_SIZE && CharAt(k) == c
  {
    if 'A' <= c <= 'Z' then (c as int) - ('A' as int) else 26 + (c as int) - ('0' as int)
  }

  /** Different draws give different characters. */
  lemma CharAtInjective(k: nat, m: nat)
    requires k < ALPHABET_SIZE && m < ALPHABET_SIZE
    ensures CharAt(k) == CharAt(m) <==> k == m
    ensures CharIndex(CharAt(k)) == k
  {
  }

  /** One draw per character, each `Math.floor(Math.random() * 36)`. */
  predicate InAlphabet(draw: seq<nat>) {
    forall i :: 0 <= i < |draw| ==> draw[i] < ALPHABET_SIZE
  }

  predicate ValidDraw(draw: seq<nat>) {
    |draw| == CODE_LENGTH && InAlphabet(draw)
  }

  function CodeOf(draw: seq<nat>): (s: string)
    requires InAlphabet(draw)
    ensures |s| == |draw| && forall i :: 0 <= i < |draw| ==> s[i] == CharAt(draw[i])
  {
    seq(|draw|, i requires 0 <= i < |draw| => CharAt(draw[i]))
  }

  function DrawOf(code: string): (d: seq<nat>)
    requires ValidCode(code)
    ensures ValidDraw(d)
  {
    seq(|code|, i requires 0 <= i < |code| => CharIndex(code[i]))
  }

  /** Every draw gives a valid code and every valid code comes from exactly
      one draw. */
  lemma CodeDrawRoundTrip(draw: seq<nat>, code: string)
    ensures ValidDraw(draw) ==> ValidCode(CodeOf(draw)) && DrawOf(CodeOf(draw)) == draw
    ensures ValidCode(code) ==> CodeOf(DrawOf(code)) == code
  {
    if ValidDraw(draw) {
      forall i | 0 <= i < |draw| ensures DrawOf(CodeOf(draw))[i] == draw[i] {
        CharAtInjective(draw[i], draw[i]);
      }
    }
  }

  /** generateCode: six characters appended one at a time. */
  method GenerateCode(draw: seq<nat>) returns (code: string)
    requires ValidDraw(draw)
    ensures code == CodeOf(draw) && ValidCode(code)
  {
    code := "";
    for i := 0 to CODE_LENGTH
      invariant code == CodeOf(draw[..i])
    {
      code := code + [CharAt(draw[i])];
    }
    assert draw[..CODE_LENGTH] == draw;
  }

  /** The first candidate not already taken, if any. */
  function FirstFree(candidates: seq<string>, taken: set<string>): (r: Option<string>)
    ensures r.Some? ==> r.value in candidates && r.value !in taken
    ensures r.None? <==> forall i :: 0 <= i < |candidates| ==> candidates[i] in taken
    ensures r.Some? ==>
      exists i :: (0 <= i < |candidates| && candidates[i] == r.value
                   && forall j :: 0 <= j < i ==> candidates[j] in taken)
  {
    if candidates == [] then None
    else if candidates[0] !in taken then Some(candidates[0])
    else
      var r := FirstFree(candidates[1..], taken);
      if r.Some? then
        var i :| 0 <= i < |candidates[1..]| && candidates[1..][i] == r.value
          && forall j :: 0 <= j < i ==> candidates[1..][j] in taken;
        assert candidates[i + 1] == r.value;
        r
      else r
  }

  predicate ValidDraws(draws: seq<seq<nat>>) {
    |draws| == MAX_ATTEMPTS && forall a :: 0 <= a < |draws| ==> ValidDraw(draws[a])
  }

  function Candidates(draws: seq<seq<nat>>): (cs: seq<string>)
    requires forall a :: 0 <= a < |draws| ==> InAlphabet(draws[a])
    ensures |cs| == |draws| && forall a :: 0 <= a < |draws| ==> cs[a] == CodeOf(draws[a])
  {
    seq(|draws|, a requires 0 <= a < |draws| => CodeOf(draws[a]))
  }

  /** The bounded retry: at most ten codes are drawn, stopping at the first
      one no existing order uses; `None` when all ten are taken. */
  method PickUniqueCode(draws: seq<seq<nat>>, taken: set<string>) returns (code: Option<string>)
    requires ValidDraws(draws)
    ensures code == FirstFree(Candidates(draws), taken)
    ensures code.Some? ==> ValidCode(code.value) && code.value !in taken
  {
    var isUnique := false;
    var attempts := 0;
    code := None;
    while !isUnique && attempts < MAX_ATTEMPTS
      invariant 0 <= attempts <= MAX_ATTEMPTS
      invariant !isUnique ==> code.None? && forall a :: 0 <= a < attempts ==> CodeOf(draws[a]) in taken
      invariant isUnique ==> code == FirstFree(Candidates(draws), taken)
      decreases MAX_ATTEMPTS - attempts
    {
      var candidate := GenerateCode(draws[attempts]);
      if candidate !in taken {
        isUnique := true;
        code := Some(candidate);
        FirstFreeAt(Candidates(draws), taken, attempts);
      }
      attempts := attempts + 1;
    }
    if code.Some? {
      CodeDrawRoundTrip(draws[0], "");
      var i :| 0 <= i < |draws| && Candidates(draws)[i] == code.value;
      CodeDrawRoundTrip(draws[i], "");
    }
  }

  /** When every candidate before position `k` is taken and the one at `k`
      is not, that one is the first free candidate. */
  lemma {:induction false} FirstFreeAt(candidates: seq<string>, taken: set<string>, k: nat)
    requires k < |candidates| && candidates[k] !in taken
    requires forall j :: 0 <= j < k ==> candidates[j] in taken
    ensures FirstFree(candidates, taken) == Some(candidates[k])
  {
    if k > 0 {
      FirstFreeAt(candidates[1..], taken, k - 1);
    }
  }

  /** `toUpperCase()` on ASCII letters. */
  function UpperChar(c: char): char {
    if 'a' <= c <= 'z' then (c as int - 32) as char else c
  }

  function ToUpper(s: string): (r: string)
    ensures |r| == |s| && forall i :: 0 <= i < |s| ==> r[i] == UpperChar(s[i])
  {
    seq(|s|, i requires 0 <= i < |s| => UpperChar(s[i]))
  }

  /** A code that passed the format check is looked up as it is: the
      controller's `toUpperCase()` changes nothing. */
  lemma UpperOfValidCode(code: string)
    requires ValidCode(code)
    ensures ToUpper(code) == code
  {
  }
}
