/**
 * The keys from which Durable Object namespaces derive their cell ids. Script
 * and class names are byte strings, one character per byte.
 */
module NamespaceKeys {
  import opened Prelude

  const D1_CLASS := "__D1Database"
  const KV_CLASS := "__KvNamespace"
  const QUEUE_CLASS := "__Queue"

  const D1_KEY := "cells:v1:d1:__D1Database"
  const KV_KEY := "cells:v1:kv:__KvNamespace"
  const QUEUE_KEY := "cells:v1:queue:__Queue"

  const PREFIX := "cells:v1:"

  function Digit(n: nat): char
    requires n < 10
  {
    '0' + n as char
  }

  predicate IsDigit(c: char) {
    '0' <= c <= '9'
  }

  function Decimal(n: nat): (r: string)
    ensures r != "" && AllDigits(r)
  {
    if n < 10 then [Digit(n)] else Decimal(n / 10) + [Digit(n % 10)]
  }

  function SharedKey(cls: string): Option<string> {
    if cls == D1_CLASS then Some(D1_KEY)
    else if cls == KV_CLASS then Some(KV_KEY)
    else if cls == QUEUE_CLASS then Some(QUEUE_KEY)
    else None
  }

  function ScopedKey(script: string, cls: string): string {
    PREFIX + (Decimal(|script|) + (":" + (script + (":" + cls))))
  }

  function NamespaceKey(script: string, cls: string): string {
    match SharedKey(cls)
    case Some(shared) => shared
    case None => ScopedKey(script, cls)
  }

  // ---------------------------------------------------------------------
  // Reading a key back
  // ---------------------------------------------------------------------

  predicate AllDigits(s: string) {
    forall i :: 0 <= i < |s| ==> IsDigit(s[i])
  }

  function Value(digits: string): nat
    requires AllDigits(digits)
  {
    if digits == "" then 0
    else
      assert IsDigit(digits[|digits| - 1]);
      Value(digits[..|digits| - 1]) * 10 + (digits[|digits| - 1] as int - '0' as int)
  }

  /** How many digits lead `s`. */
  function LeadingDigits(s: string): (n: nat)
    ensures n <= |s| && AllDigits(s[..n])
  {
    if s == "" || !IsDigit(s[0]) then 0 else 1 + LeadingDigits(s[1..])
  }

  /** Splits a scoped key, given behind its prefix, by the length it states. */
  function Parse(s: string): Option<(string, string)> {
    var n := LeadingDigits(s);
    var length := Value(s[..n]);
    if n + 1 + length + 1 <= |s| then Some((s[n + 1..n + 1 + length], s[n + 2 + length..])) else None
  }

  lemma {:induction false} DecimalValue(n: nat)
    ensures Value(Decimal(n)) == n
  {
    if n >= 10 {
      DecimalValue(n / 10);
      assert Decimal(n)[..|Decimal(n)| - 1] == Decimal(n / 10);
    }
  }

  lemma {:induction false} DigitsLead(s: string, n: nat)
    requires n < |s| && AllDigits(s[..n]) && !IsDigit(s[n])
    ensures LeadingDigits(s) == n
  {
    if n > 0 {
      assert s[..n][0] == s[0];
      assert s[1..][..n - 1] == s[..n][1..];
      DigitsLead(s[1..], n - 1);
    }
  }

  /** `s` is digits, a separator, the script, a separator, and the class. */
  predicate Reads(s: string, digits: string, script: string, cls: string) {
    var n := |digits|;
    && |s| == n + 2 + |script| + |cls| && s[..n] == digits && s[n] == ':'
    && s[n + 1..n + 1 + |script|] == script && s[n + 2 + |script|..] == cls
  }

  lemma SliceBehind(digits: string, script: string, cls: string)
    ensures Reads(digits + (":" + (script + (":" + cls))), digits, script, cls)
  {
    var s, n := digits + (":" + (script + (":" + cls))), |digits|;
    assert s[n + 1..] == script + (":" + cls);
    assert s[n + 1..n + 1 + |script|] == s[n + 1..][..|script|];
    assert s[n + 2 + |script|..] == s[n + 1..][|script| + 1..];
  }

  lemma ParseReads(s: string, digits: string, script: string, cls: string)
    requires Reads(s, digits, script, cls) && AllDigits(digits) && Value(digits) == |script|
    ensures Parse(s) == Some((script, cls))
  {
    DigitsLead(s, |digits|);
  }

  /** The stated length finds the script, whatever colons and digits it holds. */
  lemma ParseInverts(script: string, cls: string)
    ensures Parse(Decimal(|script|) + (":" + (script + (":" + cls)))) == Some((script, cls))
  {
    DecimalValue(|script|);
    SliceBehind(Decimal(|script|), script, cls);
    ParseReads(Decimal(|script|) + (":" + (script + (":" + cls))), Decimal(|script|), script, cls);
  }

  lemma ScopedKeyInjective(s1: string, c1: string, s2: string, c2: string)
    requires ScopedKey(s1, c1) == ScopedKey(s2, c2)
    ensures s1 == s2 && c1 == c2
  {
    assert ScopedKey(s1, c1)[|PREFIX|..] == Decimal(|s1|) + (":" + (s1 + (":" + c1)));
    assert ScopedKey(s2, c2)[|PREFIX|..] == Decimal(|s2|) + (":" + (s2 + (":" + c2)));
    ParseInverts(s1, c1);
    ParseInverts(s2, c2);
  }

  lemma ScopedNeverShared(script: string, cls: string, shared: string)
    requires SharedKey(shared).Some?
    ensures ScopedKey(script, cls) != SharedKey(shared).value
  {
    assert IsDigit(Decimal(|script|)[0]);
    assert ScopedKey(script, cls)[9] == Decimal(|script|)[0];
    assert D1_KEY[9] == 'd' && KV_KEY[9] == 'k' && QUEUE_KEY[9] == 'q';
  }

  lemma SharedKeysDiffer(c1: string, c2: string)
    requires SharedKey(c1).Some? && SharedKey(c1) == SharedKey(c2)
    ensures c1 == c2
  {
    assert D1_KEY[9] == 'd' && KV_KEY[9] == 'k' && QUEUE_KEY[9] == 'q';
  }

  /** Two names share a key exactly when they are the same shared class, or the same class of the same script. */
  lemma SameKeyExactly(s1: string, c1: string, s2: string, c2: string)
    ensures NamespaceKey(s1, c1) == NamespaceKey(s2, c2) <==> c1 == c2 && (SharedKey(c1).Some? || s1 == s2)
  {
    if NamespaceKey(s1, c1) == NamespaceKey(s2, c2) {
      if SharedKey(c1).Some? && SharedKey(c2).Some? {
        SharedKeysDiffer(c1, c2);
      } else if SharedKey(c1).Some? {
        ScopedNeverShared(s2, c2, c1);
      } else if SharedKey(c2).Some? {
        ScopedNeverShared(s1, c1, c2);
      } else {
        ScopedKeyInjective(s1, c1, s2, c2);
      }
    }
  }

  /** The three shared classes have one fixed address each, whatever script names them. */
  lemma SharedAddresses(script: string)
    ensures NamespaceKey(script, "__D1Database") == "cells:v1:d1:__D1Database"
    ensures NamespaceKey(script, "__KvNamespace") == "cells:v1:kv:__KvNamespace"
    ensures NamespaceKey(script, "__Queue") == "cells:v1:queue:__Queue"
  {
    assert "__D1Database"[2] == 'D' && "__KvNamespace"[2] == 'K' && "__Queue"[2] == 'Q';
  }

  /** Every other key reads back, behind its version prefix, as the script and the class. */
  lemma ScopedKeyReads(script: string, cls: string)
    requires cls != "__D1Database" && cls != "__KvNamespace" && cls != "__Queue"
    ensures var key := NamespaceKey(script, cls);
      "cells:v1:" <= key && Parse(key[9..]) == Some((script, cls))
  {
    ParseInverts(script, cls);
    var key := NamespaceKey(script, cls);
    assert key[9..] == Decimal(|script|) + (":" + (script + (":" + cls)));
  }
}
