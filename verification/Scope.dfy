/** The per-stack scope string of internal/secrets/secrets.go: the HKDF info and the additional
    authenticated data of every secret. Each character stands for one byte. */
module Scope {
  import opened Types
  import opened Decimal

  const STACK_KEY_PREFIX := "pulumi-backend/secrets/stack/v2"

  /** One length-prefixed segment. */
  function Field(s: string): string {
    Digits(|s|) + ":" + s
  }

  function StackScope(org: string, project: string, stack: string): string {
    STACK_KEY_PREFIX + [0 as char] + Field(org) + Field(project) + Field(stack)
  }

  /** Reads one segment back: the digits up to the colon, then that many bytes. */
  function ReadField(s: string): Option<(string, string)> {
    var n := DigitRun(s);
    if n == 0 || n >= |s| || s[n] != ':' then None
    else
      var length := Value(s[..n]);
      if n + 1 + length > |s| then None
      else Some((s[n + 1..n + 1 + length], s[n + 1 + length..]))
  }

  function DigitRun(s: string): (n: nat)
    ensures n <= |s| && AllDigits(s[..n]) && (n < |s| ==> !IsDigit(s[n]))
  {
    if s == "" || !IsDigit(s[0]) then 0
    else
      assert forall i | 0 < i < 1 + DigitRun(s[1..]) :: s[i] == s[1..][i - 1];
      1 + DigitRun(s[1..])
  }

  function ReadScope(s: string): Option<(string, string, string)> {
    var head := STACK_KEY_PREFIX + [0 as char];
    if !(head <= s) then None
    else ReadFields(s[|head|..])
  }

  /** Whatever follows, and whatever bytes the segment holds, reading undoes writing. */
  lemma FieldRoundTrip(s: string, rest: string)
    ensures ReadField(Field(s) + rest) == Some((s, rest))
  {
    var whole, d := Field(s) + rest, Digits(|s|);
    var n := DigitRun(whole);
    assert whole[|d|] == ':' && whole[..|d|] == d;
    assert forall i | 0 <= i < |d| :: IsDigit(whole[..|d|][i]);
    assert forall i | 0 <= i < n :: IsDigit(whole[..n][i]);
    assert n == |d|;
    ValueOfDigits(|s|);
    assert whole[n + 1..n + 1 + |s|] == s && whole[n + 1 + |s|..] == rest;
  }

  /** Three segments, one after the other. */
  function ReadFields(s: string): Option<(string, string, string)> {
    match ReadField(s)
    case None => None
    case Some((org, rest)) => match ReadField(rest)
      case None => None
      case Some((project, rest')) => match ReadField(rest')
        case None => None
        case Some((stack, rest'')) => if rest'' == "" then Some((org, project, stack)) else None
  }

  lemma FieldsRoundTrip(org: string, project: string, stack: string)
    ensures ReadFields(Field(org) + (Field(project) + (Field(stack) + ""))) == Some((org, project, stack))
  {
    FieldRoundTrip(org, Field(project) + (Field(stack) + ""));
    FieldRoundTrip(project, Field(stack) + "");
    FieldRoundTrip(stack, "");
  }

  lemma Cut(head: string, a: string, b: string, c: string)
    ensures head <= head + a + b + c && (head + a + b + c)[|head|..] == a + (b + (c + ""))
  {
  }

  lemma ScopeRoundTrip(org: string, project: string, stack: string)
    ensures ReadScope(StackScope(org, project, stack)) == Some((org, project, stack))
  {
    Cut(STACK_KEY_PREFIX + [0 as char], Field(org), Field(project), Field(stack));
    FieldsRoundTrip(org, project, stack);
  }

  /** Two stacks share a scope, and so a key and an AAD, only when they are the same stack. */
  lemma ScopeInjective(o1: string, p1: string, s1: string, o2: string, p2: string, s2: string)
    requires StackScope(o1, p1, s1) == StackScope(o2, p2, s2)
    ensures o1 == o2 && p1 == p2 && s1 == s2
  {
    ScopeRoundTrip(o1, p1, s1);
    ScopeRoundTrip(o2, p2, s2);
  }
}
