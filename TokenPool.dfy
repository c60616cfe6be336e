/**
 * The credential pool of app.py: parsing the `TOKEN_POOL` setting, and the
 * `TokenPool` class that rotates over the tokens not cooling down, counts
 * failures, disables a token once its count reaches the threshold and
 * re-enables every token when all of them are cooling down.
 *
 * The pure half (`PoolState` and its step functions) states what each
 * operation does; the class `Pool` holds the same fields and its methods are
 * proved to perform those steps. Clock readings are the integer parameter `now`
 * (seconds).
 */
module TokenPool {
  import opened Wrappers
  import opened Text

  // ---------------------------------------------------------------------------
  // Sequence helpers

  /** Index of the first occurrence of `t` in `s`. */
  function FirstIndex(s: seq<string>, t: string): (k: nat)
    requires t in s
    ensures k < |s| && s[k] == t && forall j :: 0 <= j < k ==> s[j] != t
  {
    if s[0] == t then 0 else 1 + FirstIndex(s[1..], t)
  }

  // ---------------------------------------------------------------------------
  // _parse_token_pool and the TOKEN fallback

  /** The separators of `re.split(r"[\n,]", raw)`. */
  const Separators: set<char> := {'\n', ','}

  /** The stripped, non-empty pieces, in order. Defined on the last piece, the
      way the loop appends. */
  function KeepStripped(pieces: seq<string>): seq<string>
  {
    if pieces == [] then []
    else
      var t := Strip(pieces[|pieces| - 1]);
      KeepStripped(pieces[..|pieces| - 1]) + (if t != "" then [t] else [])
  }

  /** The token list `_parse_token_pool(raw)` returns. */
  function ParsedTokens(raw: string): seq<string>
  {
    if raw == "" then [] else KeepStripped(SplitBy(raw, Separators))
  }

  /** The positions of the pieces `KeepStripped` keeps. */
  function KeptIndices(pieces: seq<string>): seq<nat>
  {
    if pieces == [] then []
    else
      var n := |pieces| - 1;
      KeptIndices(pieces[..n]) + (if Strip(pieces[n]) != "" then [n] else [])
  }

  /** The kept positions increase and point at the pieces the tokens were
      stripped from: `KeepStripped` keeps the input order. */
  lemma {:induction false} KeptIndicesSound(pieces: seq<string>)
    ensures |KeptIndices(pieces)| == |KeepStripped(pieces)|
    ensures forall j :: 0 <= j < |KeptIndices(pieces)| ==>
      KeptIndices(pieces)[j] < |pieces| && KeepStripped(pieces)[j] == Strip(pieces[KeptIndices(pieces)[j]])
    ensures forall i, j :: 0 <= i < j < |KeptIndices(pieces)| ==> KeptIndices(pieces)[i] < KeptIndices(pieces)[j]
  {
    if pieces != [] {
      var n := |pieces| - 1;
      var p := pieces[..n];
      KeptIndicesSound(p);
      var idx, kept := KeptIndices(p), KeepStripped(p);
      assert forall j :: 0 <= j < |idx| ==> p[idx[j]] == pieces[idx[j]];
      var t := Strip(pieces[n]);
      if t != "" {
        var idx', kept' := idx + [n], kept + [t];
        assert KeptIndices(pieces) == idx';
        assert KeepStripped(pieces) == kept';
        assert forall j :: 0 <= j < |idx'| ==> idx'[j] < |pieces| && kept'[j] == Strip(pieces[idx'[j]]);
        assert forall i, j :: 0 <= i < j < |idx'| ==> idx'[i] < idx'[j];
      }
    }
  }

  /** Every piece that is not blank gives a token: `KeepStripped` loses none. */
  lemma {:induction false} KeptIndicesComplete(pieces: seq<string>)
    ensures forall i :: 0 <= i < |pieces| && Strip(pieces[i]) != "" ==> i in KeptIndices(pieces)
  {
    if pieces != [] {
      var n := |pieces| - 1;
      var p := pieces[..n];
      KeptIndicesComplete(p);
      assert forall i :: 0 <= i < n ==> p[i] == pieces[i];
    }
  }

  /** Every parsed token is non-empty, has no surrounding whitespace and holds
      no separator; tokens come in the order of the pieces they were cut from,
      and every piece that is not blank yields one. */
  lemma {:induction false} ParsedTokensShape(raw: string)
    ensures forall i :: 0 <= i < |ParsedTokens(raw)| ==>
      var t := ParsedTokens(raw)[i];
      t != "" && !IsSpace(t[0]) && !IsSpace(t[|t| - 1]) && Avoids(t, Separators)
  {
    if raw != "" {
      KeepStrippedShape(SplitBy(raw, Separators));
    }
  }

  lemma {:induction false} KeepStrippedShape(pieces: seq<string>)
    requires forall i :: 0 <= i < |pieces| ==> Avoids(pieces[i], Separators)
    ensures forall i :: 0 <= i < |KeepStripped(pieces)| ==>
      var t := KeepStripped(pieces)[i];
      t != "" && !IsSpace(t[0]) && !IsSpace(t[|t| - 1]) && Avoids(t, Separators)
  {
    if pieces != [] {
      var n := |pieces| - 1;
      KeepStrippedShape(pieces[..n]);
      var t := Strip(pieces[n]);
      assert forall c :: c in t ==> c in pieces[n];
      assert Avoids(t, Separators) by {
        forall i | 0 <= i < |t| ensures t[i] !in Separators {
          assert t[i] in t;
        }
      }
    }
  }

  /** `_parse_token_pool`: split on newline or comma, strip, drop empty pieces. */
  method ParseTokenPool(raw: string) returns (tokens: seq<string>)
    ensures tokens == ParsedTokens(raw)
    ensures raw == "" ==> tokens == []
    ensures forall i :: 0 <= i < |tokens| ==> tokens[i] != "" && Avoids(tokens[i], Separators)
  {
    tokens := [];
    if raw == "" {
      return;
    }
    var pieces := SplitBy(raw, Separators);
    for i := 0 to |pieces|
      invariant tokens == KeepStripped(pieces[..i])
    {
      var token := Strip(pieces[i]);
      assert pieces[..i + 1][..i] == pieces[..i];
      if token != "" {
        tokens := tokens + [token];
      }
    }
    assert pieces[..|pieces|] == pieces;
    ParsedTokensShape(raw);
  }

  /** The module-level fallback: the single `TOKEN` is appended to the parsed
      pool when it is non-empty and not already there. */
  function WithStaticToken(tokens: seq<string>, token: string): (r: seq<string>)
    ensures token != "" ==> token in r
    ensures |tokens| <= |r| <= |tokens| + 1 && r[..|tokens|] == tokens
    ensures NoDup(tokens) ==> NoDup(r)
    ensures forall t :: t in r ==> t in tokens || t == token
  {
    if token != "" && token !in tokens then tokens + [token] else tokens
  }

  // ---------------------------------------------------------------------------
  // Deduplication (the first loop of `update`)

  /** The non-empty elements of `s`, each kept at its first occurrence. */
  function Dedup(s: seq<string>): seq<string>
  {
    if s == [] then []
    else
      var d := Dedup(s[..|s| - 1]);
      var t := s[|s| - 1];
      if t != "" && t !in d then d + [t] else d
  }

  /** `Dedup` keeps exactly the non-empty elements, once each. */
  lemma {:induction false} DedupContents(s: seq<string>)
    ensures NoDup(Dedup(s)) && "" !in Dedup(s)
    ensures forall t :: t in Dedup(s) <==> t in s && t != ""
  {
    if s != [] {
      var n := |s| - 1;
      DedupContents(s[..n]);
      assert s == s[..n] + [s[n]];
    }
  }

  /** `Dedup` keeps first-occurrence order: an element kept earlier first
      occurs earlier in the input. */
  lemma {:induction false} DedupOrder(s: seq<string>)
    ensures forall i, j :: 0 <= i < j < |Dedup(s)| ==>
      Dedup(s)[i] in s && Dedup(s)[j] in s && FirstIndex(s, Dedup(s)[i]) < FirstIndex(s, Dedup(s)[j])
  {
    if s != [] {
      var n := |s| - 1;
      var p := s[..n];
      DedupOrder(p);
      DedupContents(p);
      DedupContents(s);
      var t := s[n];
      var d := Dedup(p);
      assert forall x :: x in d ==> x in p;
      if t != "" && t !in d {
        assert t !in p;
        assert FirstIndex(s, t) == n by {
          assert forall j :: 0 <= j < n ==> s[j] == p[j];
        }
        var r := d + [t];
        forall i, j | 0 <= i < j < |r|
          ensures r[i] in s && r[j] in s && FirstIndex(s, r[i]) < FirstIndex(s, r[j])
        {
          assert r[i] == d[i] && d[i] in p;
          FirstIndexPrefix(p, s, d[i]);
          if j < |d| {
            assert r[j] == d[j];
            FirstIndexPrefix(p, s, d[j]);
          }
        }
        assert Dedup(s) == r;
      } else {
        assert Dedup(s) == d;
        forall i, j | 0 <= i < j < |d|
          ensures d[i] in s && d[j] in s && FirstIndex(s, d[i]) < FirstIndex(s, d[j])
        {
          assert d[i] in p && d[j] in p;
          FirstIndexPrefix(p, s, d[i]);
          FirstIndexPrefix(p, s, d[j]);
        }
      }
    } else {
      assert Dedup(s) == [];
    }
  }

  lemma FirstIndexPrefix(p: seq<string>, s: seq<string>, x: string)
    requires p <= s && x in p
    ensures x in s && FirstIndex(s, x) == FirstIndex(p, x)
  {
    var k := FirstIndex(p, x);
    var m := FirstIndex(s, x);
    assert s[k] == x;
    assert m <= k;
    assert p[m] == s[m];
  }

  /** Deduplicating twice changes nothing. */
  lemma {:induction false} DedupIdempotent(s: seq<string>)
    ensures Dedup(Dedup(s)) == Dedup(s)
  {
    DedupContents(s);
    DedupOfNoDup(Dedup(s));
  }

  lemma {:induction false} DedupOfNoDup(s: seq<string>)
    requires NoDup(s) && "" !in s
    ensures Dedup(s) == s
  {
    if s != [] {
      var n := |s| - 1;
      DedupOfNoDup(s[..n]);
      assert s[n] !in s[..n];
      assert s == s[..n] + [s[n]];
    }
  }

  /** The first loop of `update`: keep each non-empty token at its first
      occurrence, remembering the ones seen in a set. */
  method DedupTokens(list: seq<string>) returns (unique: seq<string>)
    ensures unique == Dedup(list)
    ensures NoDup(unique) && "" !in unique
    ensures forall t :: t in unique <==> t in list && t != ""
  {
    unique := [];
    var seen: set<string> := {};
    for i := 0 to |list|
      invariant unique == Dedup(list[..i])
      invariant seen == Elems(unique)
    {
      var token := list[i];
      assert list[..i + 1][..i] == list[..i];
      if token != "" && token !in seen {
        unique := unique + [token];
        seen := seen + {token};
      }
    }
    assert list[..|list|] == list;
    DedupContents(list);
  }

  // ---------------------------------------------------------------------------
  // Pool state

  /** The fields of `TokenPool`: the token list, the rotation index, the
      failure threshold, the cooldown (`TOKEN_POOL_RESET_FAILURES`), the
      failure counts and the times tokens were disabled. */
  datatype PoolState = PoolState(
    tokens: seq<string>,
    index: nat,
    threshold: int,
    cooldown: int,
    failures: map<string, int>,
    disabled: map<string, int>)

  /** What every operation keeps. */
  ghost predicate Inv(s: PoolState) {
    && s.threshold >= 1
    && NoDup(s.tokens) && "" !in s.tokens
    && s.failures.Keys <= Elems(s.tokens)
    && s.disabled.Keys <= s.failures.Keys
    && (forall t :: t in s.failures ==> s.failures[t] >= 1)
    && (forall t :: t in s.disabled ==> s.failures[t] >= s.threshold)
    && (s.index == 0 || s.index < |s.tokens|)
  }

  /** `token` is non-empty and in the list: the guard of `contains`,
      `mark_success` and `mark_failure`. */
  predicate Listed(token: Option<string>, tokens: seq<string>) {
    token.Some? && token.value != "" && token.value in tokens
  }

  /** `t` was disabled less than `cooldown` seconds before `now`. */
  predicate CoolingDown(t: string, disabled: map<string, int>, now: int, cooldown: int) {
    t in disabled && now - disabled[t] < cooldown
  }

  /** `_available_tokens`: the tokens not cooling down, in list order. */
  function Available(tokens: seq<string>, disabled: map<string, int>, now: int, cooldown: int): seq<string>
  {
    if tokens == [] then []
    else
      var rest := Available(tokens[..|tokens| - 1], disabled, now, cooldown);
      var t := tokens[|tokens| - 1];
      if CoolingDown(t, disabled, now, cooldown) then rest else rest + [t]
  }

  /** A token is available exactly when it is listed and not cooling down. */
  lemma {:induction false} AvailableMembers(tokens: seq<string>, disabled: map<string, int>, now: int, cooldown: int)
    ensures forall t :: t in Available(tokens, disabled, now, cooldown) <==>
      t in tokens && !CoolingDown(t, disabled, now, cooldown)
    ensures |Available(tokens, disabled, now, cooldown)| <= |tokens|
  {
    if tokens != [] {
      var n := |tokens| - 1;
      AvailableMembers(tokens[..n], disabled, now, cooldown);
      assert tokens == tokens[..n] + [tokens[n]];
    }
  }

  /** With nothing disabled every token is available, in order. */
  lemma {:induction false} AvailableWhenNoneDisabled(tokens: seq<string>, now: int, cooldown: int)
    ensures Available(tokens, map[], now, cooldown) == tokens
  {
    if tokens != [] {
      var n := |tokens| - 1;
      AvailableWhenNoneDisabled(tokens[..n], now, cooldown);
      assert tokens == tokens[..n] + [tokens[n]];
    }
  }

  /** The pool `TokenPool(tokens, failure_threshold)` starts with. */
  function InitState(tokens: seq<string>, failureThreshold: int, cooldown: int): PoolState
  {
    var s0 := PoolState([], 0, if failureThreshold < 1 then 1 else failureThreshold, cooldown, map[], map[]);
    if tokens == [] then s0 else UpdateStep(s0, tokens)
  }

  /** `get`: pick from the available tokens, re-enabling all of them first
      when none is available. */
  function GetStep(s: PoolState, now: int): (Option<string>, PoolState)
  {
    var avail := Available(s.tokens, s.disabled, now, s.cooldown);
    var s1 := if avail == [] then s.(disabled := map[]) else s;
    var avail1 := if avail == [] then Available(s1.tokens, s1.disabled, now, s1.cooldown) else avail;
    if avail1 == [] then (None, s1)
    else (Some(avail1[s.index % |avail1|]), s1.(index := (s.index + 1) % |avail1|))
  }

  /** `mark_success`: forget the failures and the cooldown of a listed token. */
  function SuccessStep(s: PoolState, token: Option<string>): PoolState
  {
    if !Listed(token, s.tokens) then s
    else s.(failures := s.failures - {token.value}, disabled := s.disabled - {token.value})
  }

  function FailureCount(s: PoolState, t: string): int {
    if t in s.failures then s.failures[t] else 0
  }

  /** `mark_failure`: count one more failure of a listed token and disable it
      at `now` once the count reaches the threshold. */
  function FailureStep(s: PoolState, token: Option<string>, now: int): PoolState
  {
    if !Listed(token, s.tokens) then s
    else
      var t := token.value;
      var count := FailureCount(s, t) + 1;
      s.(failures := s.failures[t := count],
         disabled := if count >= s.threshold then s.disabled[t := now] else s.disabled)
  }

  /** `update`: replace the list by its deduplication, reset the index and
      drop the failure entries (and with them the disabled entries) of tokens
      no longer listed. */
  function UpdateStep(s: PoolState, list: seq<string>): PoolState
  {
    var unique := Dedup(list);
    s.(tokens := unique, index := 0,
       failures := map k | k in s.failures && k in unique :: s.failures[k],
       disabled := map k | k in s.disabled && (k !in s.failures || k in unique) :: s.disabled[k])
  }

  // ---------------------------------------------------------------------------
  // Properties of the steps

  lemma InitEstablishes(tokens: seq<string>, failureThreshold: int, cooldown: int)
    ensures Inv(InitState(tokens, failureThreshold, cooldown))
    ensures InitState(tokens, failureThreshold, cooldown).tokens == Dedup(tokens)
  {
    var s0 := PoolState([], 0, if failureThreshold < 1 then 1 else failureThreshold, cooldown, map[], map[]);
    UpdatePreserves(s0, tokens);
  }

  /** `get` returns nothing only from an empty pool, thanks to the fail-open
      reset; otherwise it returns the available token at `index mod n` and
      moves the index to `(index + 1) mod n`, where the available tokens are
      those of the state after the reset. The reset clears every cooldown and
      keeps the failure counts. */
  lemma GetSpec(s: PoolState, now: int)
    requires Inv(s)
    ensures var (r, s') := GetStep(s, now);
      && Inv(s')
      && (r.None? <==> s.tokens == [])
      && s'.tokens == s.tokens && s'.failures == s.failures
      && s'.threshold == s.threshold && s'.cooldown == s.cooldown
      && (Available(s.tokens, s.disabled, now, s.cooldown) == [] ==> s'.disabled == map[])
      && (Available(s.tokens, s.disabled, now, s.cooldown) != [] ==> s'.disabled == s.disabled)
      && (r.Some? ==>
            var avail := Available(s'.tokens, s'.disabled, now, s'.cooldown);
            && |avail| > 0
            && r.value == avail[s.index % |avail|]
            && s'.index == (s.index + 1) % |avail|
            && s'.index < |avail|
            && r.value in s.tokens)
  {
    AvailableWhenNoneDisabled(s.tokens, now, s.cooldown);
    var avail := Available(s.tokens, s.disabled, now, s.cooldown);
    AvailableMembers(s.tokens, s.disabled, now, s.cooldown);
    if avail == [] {
      AvailableMembers(s.tokens, map[], now, s.cooldown);
    }
  }

  /** While some token is available, `get` never returns a token that is
      cooling down. */
  lemma GetSkipsCoolingDown(s: PoolState, now: int)
    requires Inv(s)
    requires Available(s.tokens, s.disabled, now, s.cooldown) != []
    ensures GetStep(s, now).0.Some?
    ensures !CoolingDown(GetStep(s, now).0.value, s.disabled, now, s.cooldown)
  {
    var avail := Available(s.tokens, s.disabled, now, s.cooldown);
    AvailableMembers(s.tokens, s.disabled, now, s.cooldown);
    assert avail[s.index % |avail|] in avail;
  }

  /** `mark_success` on a listed token clears both its entries; on anything
      else it changes nothing. */
  lemma SuccessSpec(s: PoolState, token: Option<string>, now: int)
    requires Inv(s)
    ensures Inv(SuccessStep(s, token))
    ensures Listed(token, s.tokens) ==>
      && token.value !in SuccessStep(s, token).failures
      && token.value !in SuccessStep(s, token).disabled
      && token.value in Available(s.tokens, SuccessStep(s, token).disabled, now, s.cooldown)
    ensures !Listed(token, s.tokens) ==> SuccessStep(s, token) == s
  {
    AvailableMembers(s.tokens, SuccessStep(s, token).disabled, now, s.cooldown);
  }

  /** `mark_failure` on a listed token adds one to its count and disables it
      at `now` when the count reaches the threshold; the threshold is never
      below one; anything else is a no-op. */
  lemma FailureSpec(s: PoolState, token: Option<string>, now: int)
    requires Inv(s)
    ensures Inv(FailureStep(s, token, now))
    ensures Listed(token, s.tokens) ==>
      var s' := FailureStep(s, token, now);
      && FailureCount(s', token.value) == FailureCount(s, token.value) + 1
      && (FailureCount(s', token.value) >= s.threshold ==> s'.disabled == s.disabled[token.value := now])
      && (FailureCount(s', token.value) < s.threshold ==> s'.disabled == s.disabled)
    ensures !Listed(token, s.tokens) ==> FailureStep(s, token, now) == s
  {
  }

  /** Failures reported at the times in `times`, one after the other. */
  function FailAt(s: PoolState, token: Option<string>, times: seq<int>): PoolState
  {
    if times == [] then s
    else FailureStep(FailAt(s, token, times[..|times| - 1]), token, times[|times| - 1])
  }

  /** After `n` consecutive failures of a listed token that bring its count
      to the threshold, the token is disabled at the time of the last one, and
      for the whole cooldown after that `_available_tokens` leaves it out. */
  lemma {:induction false} ConsecutiveFailures(s: PoolState, t: string, times: seq<int>, later: int)
    requires Inv(s) && t in s.tokens
    requires times != [] && FailureCount(s, t) + |times| >= s.threshold
    requires later - times[|times| - 1] < s.cooldown
    ensures var s' := FailAt(s, Some(t), times);
      && Inv(s')
      && FailureCount(s', t) == FailureCount(s, t) + |times|
      && t in s'.disabled && s'.disabled[t] == times[|times| - 1]
      && t !in Available(s'.tokens, s'.disabled, later, s'.cooldown)
  {
    FailCounts(s, t, times);
    var s' := FailAt(s, Some(t), times);
    AvailableMembers(s'.tokens, s'.disabled, later, s'.cooldown);
  }

  lemma {:induction false} FailCounts(s: PoolState, t: string, times: seq<int>)
    requires Inv(s) && t in s.tokens
    ensures var s' := FailAt(s, Some(t), times);
      && Inv(s')
      && s'.tokens == s.tokens && s'.threshold == s.threshold && s'.cooldown == s.cooldown
      && FailureCount(s', t) == FailureCount(s, t) + |times|
      && (times != [] && FailureCount(s', t) >= s.threshold ==>
            t in s'.disabled && s'.disabled[t] == times[|times| - 1])
  {
    if times != [] {
      FailCounts(s, t, times[..|times| - 1]);
      FailureSpec(FailAt(s, Some(t), times[..|times| - 1]), Some(t), times[|times| - 1]);
    }
  }

  /** `update` keeps the invariant; the new list is the deduplicated input,
      the index is zero, and the failure and disabled entries of the tokens
      that remain are kept while those of the other tokens are gone. */
  lemma UpdatePreserves(s: PoolState, list: seq<string>)
    requires Inv(s)
    ensures var s' := UpdateStep(s, list);
      && Inv(s')
      && s'.tokens == Dedup(list) && s'.index == 0
      && (forall t :: t in s'.failures <==> t in s.failures && t in list && t != "")
      && (forall t :: t in s'.failures ==> s'.failures[t] == s.failures[t])
      && (forall t :: t in s'.disabled <==> t in s.disabled && t in list && t != "")
      && (forall t :: t in s'.disabled ==> s'.disabled[t] == s.disabled[t])
  {
    DedupContents(list);
  }

  /** Updating with the same tokens, in any order and with repetitions,
      keeps all health entries. */
  lemma UpdateSameTokensKeepsHealth(s: PoolState, list: seq<string>)
    requires Inv(s)
    requires forall t :: t in list && t != "" <==> t in s.tokens
    ensures UpdateStep(s, list).failures == s.failures
    ensures UpdateStep(s, list).disabled == s.disabled
    ensures UpdateStep(s, list).index == 0
  {
    DedupContents(list);
  }

  // ---------------------------------------------------------------------------
  // Rotation

  /** The tokens `m` successive `get` calls return while the available
      tokens stay `avail`, starting from index `index`. */
  function Rotation(avail: seq<string>, index: nat, m: nat): (r: seq<string>)
    requires |avail| > 0
    ensures |r| == m
    decreases m
  {
    if m == 0 then [] else [avail[index % |avail|]] + Rotation(avail, (index + 1) % |avail|, m - 1)
  }

  lemma {:induction false} MulAtLeast(d: int, n: int)
    requires n > 0
    ensures d >= 1 ==> d * n >= n
  {
    if d > 1 {
      MulAtLeast(d - 1, n);
      assert d * n == (d - 1) * n + n;
    }
  }

  /** Quotient and remainder are unique. */
  lemma DivModUnique(y: int, a: int, r: int, n: int)
    requires n > 0 && 0 <= r < n && y == a * n + r
    ensures y % n == r && y / n == a
  {
    var q, s := y / n, y % n;
    assert y == q * n + s;
    assert (q - a) * n == r - s;
    MulAtLeast(q - a, n);
    MulAtLeast(a - q, n);
    assert (a - q) * n == s - r;
  }

  lemma ModShift(a: nat, b: nat, n: nat)
    requires n > 0
    ensures (a % n + b) % n == (a + b) % n
  {
    DivModUnique(a + b, a / n + (a % n + b) / n, (a % n + b) % n, n);
  }

  /** The `j`-th of those tokens is the one at `(index + j) mod n`. */
  lemma {:induction false} RotationAt(avail: seq<string>, index: nat, m: nat, j: nat)
    requires |avail| > 0 && j < m
    ensures Rotation(avail, index, m)[j] == avail[(index + j) % |avail|]
    decreases j
  {
    var n := |avail|;
    if j > 0 {
      var next := (index + 1) % n;
      assert Rotation(avail, index, m)[j] == Rotation(avail, next, m - 1)[j - 1];
      RotationAt(avail, next, m - 1, j - 1);
      ModShift(index + 1, j - 1, n);
      assert next + (j - 1) == (index + 1) % n + (j - 1);
      assert (next + (j - 1)) % n == (index + j) % n;
    }
  }

  /** `k` copies of `s`, one after the other. */
  function Repeat(s: seq<string>, k: nat): (r: seq<string>)
    ensures |r| == k * |s|
  {
    if k == 0 then [] else Repeat(s, k - 1) + s
  }

  lemma {:induction false} RepeatAt(s: seq<string>, k: nat, j: nat)
    requires |s| > 0 && j < k * |s|
    ensures Repeat(s, k)[j] == s[j % |s|]
  {
    var n := |s|;
    if j < (k - 1) * n {
      RepeatAt(s, k - 1, j);
    } else {
      DivModUnique(j, k - 1, j - (k - 1) * n, n);
    }
  }

  /** Round-robin fairness: `k * n` calls from index 0 over `n` available
      tokens return the list `k` times over, in order, so each token exactly
      `k` times. */
  lemma RoundRobin(avail: seq<string>, k: nat)
    requires |avail| > 0 && NoDup(avail)
    ensures Rotation(avail, 0, k * |avail|) == Repeat(avail, k)
    ensures forall t :: t in avail ==> multiset(Rotation(avail, 0, k * |avail|))[t] == k
  {
    forall j | 0 <= j < k * |avail| ensures Rotation(avail, 0, k * |avail|)[j] == Repeat(avail, k)[j] {
      RotationAt(avail, 0, k * |avail|, j);
      RepeatAt(avail, k, j);
    }
    forall t | t in avail ensures multiset(Repeat(avail, k))[t] == k {
      RepeatCount(avail, k, t);
    }
  }

  lemma {:induction false} RepeatCount(s: seq<string>, k: nat, t: string)
    requires NoDup(s) && t in s
    ensures multiset(Repeat(s, k))[t] == k
  {
    if k > 0 {
      RepeatCount(s, k - 1, t);
      OnceInNoDup(s, t);
    }
  }

  lemma {:induction false} OnceInNoDup(s: seq<string>, t: string)
    requires NoDup(s) && t in s
    ensures multiset(s)[t] == 1
  {
    var n := |s| - 1;
    assert s == s[..n] + [s[n]];
    if s[n] == t {
      assert t !in s[..n];
    } else {
      assert t in s[..n];
      OnceInNoDup(s[..n], t);
    }
  }

  /** Successive `get` calls at the times `times`: what each returns and
      the state after the last. */
  function GetN(s: PoolState, times: seq<int>): (out: (seq<Option<string>>, PoolState))
    ensures |out.0| == |times|
    decreases |times|
  {
    if times == [] then ([], s)
    else
      var (r, s1) := GetStep(s, times[0]);
      var (rs, s2) := GetN(s1, times[1..]);
      ([r] + rs, s2)
  }

  /** `Some` of each token. */
  function Somes(ts: seq<string>): (r: seq<Option<string>>)
    ensures |r| == |ts| && forall j :: 0 <= j < |ts| ==> r[j] == Some(ts[j])
  {
    seq(|ts|, j requires 0 <= j < |ts| => Some(ts[j]))
  }

  /** While no token is cooling down, successive `get` calls cycle through
      the list in order from the current index, whatever the times. */
  lemma {:induction false} GetNRotation(s: PoolState, times: seq<int>)
    requires Inv(s) && s.tokens != [] && s.disabled == map[]
    ensures GetN(s, times).0 == Somes(Rotation(s.tokens, s.index, |times|))
    ensures GetN(s, times).1.disabled == map[] && GetN(s, times).1.tokens == s.tokens
    decreases |times|
  {
    if times != [] {
      var n := |s.tokens|;
      GetFresh(s, times[0]);
      var s1 := s.(index := (s.index + 1) % n);
      GetNRotation(s1, times[1..]);
      GetNStep(s, times, Some(s.tokens[s.index % n]), s1);
      var rest := Rotation(s.tokens, (s.index + 1) % n, |times| - 1);
      assert Rotation(s.tokens, s.index, |times|) == [s.tokens[s.index % n]] + rest;
      SomesCons(s.tokens[s.index % n], rest);
    }
  }

  lemma SomesCons(t: string, ts: seq<string>)
    ensures Somes([t] + ts) == [Some(t)] + Somes(ts)
  {
  }

  /** `get` with no token cooling down returns the token at the index and
      moves the index on by one. */
  lemma GetFresh(s: PoolState, now: int)
    requires Inv(s) && s.tokens != [] && s.disabled == map[]
    ensures GetStep(s, now) == (Some(s.tokens[s.index % |s.tokens|]), s.(index := (s.index + 1) % |s.tokens|))
    ensures Inv(s.(index := (s.index + 1) % |s.tokens|))
  {
    AvailableWhenNoneDisabled(s.tokens, now, s.cooldown);
  }

  lemma GetNStep(s: PoolState, times: seq<int>, r: Option<string>, s1: PoolState)
    requires times != [] && GetStep(s, times[0]) == (r, s1)
    ensures GetN(s, times) == ([r] + GetN(s1, times[1..]).0, GetN(s1, times[1..]).1)
  {
  }

  /** Round-robin fairness of `get`: from index 0 with no token cooling
      down, `k * n` calls over `n` tokens return the list `k` times over, in
      order, and so every token exactly `k` times. */
  lemma GetRoundRobin(s: PoolState, times: seq<int>, k: nat)
    requires Inv(s) && s.tokens != [] && s.disabled == map[] && s.index == 0
    requires |times| == k * |s.tokens|
    ensures GetN(s, times).0 == Somes(Repeat(s.tokens, k))
    ensures forall t :: t in s.tokens ==> multiset(GetN(s, times).0)[Some(t)] == k
  {
    GetNRotation(s, times);
    RoundRobin(s.tokens, k);
    forall t | t in s.tokens ensures multiset(Somes(Repeat(s.tokens, k)))[Some(t)] == k {
      SomesCount(Repeat(s.tokens, k), t);
    }
  }

  /** `Somes` keeps the number of occurrences of each token. */
  lemma {:induction false} SomesCount(ts: seq<string>, t: string)
    ensures multiset(Somes(ts))[Some(t)] == multiset(ts)[t]
  {
    if ts != [] {
      var n := |ts| - 1;
      SomesCount(ts[..n], t);
      assert ts == ts[..n] + [ts[n]];
      assert Somes(ts) == Somes(ts[..n]) + [Some(ts[n])];
    }
  }

  // ---------------------------------------------------------------------------
  // The class

  /** `TokenPool`. The lock is left out: the operations run one at a time. */
  class Pool {
    var tokens: seq<string>
    var index: nat
    const threshold: int
    const cooldown: int
    var failures: map<string, int>
    var disabled: map<string, int>

    ghost function State(): PoolState
      reads this
    {
      PoolState(tokens, index, threshold, cooldown, failures, disabled)
    }

    ghost predicate Valid()
      reads this
    {
      Inv(State())
    }

    /** `TokenPool(tokens, failure_threshold)`, with the cooldown given. */
    constructor (initial: seq<string>, failureThreshold: int, cooldownSeconds: int)
      ensures Valid()
      ensures State() == InitState(initial, failureThreshold, cooldownSeconds)
    {
      tokens := [];
      index := 0;
      threshold := if failureThreshold < 1 then 1 else failureThreshold;
      cooldown := cooldownSeconds;
      failures := map[];
      disabled := map[];
      new;
      InitEstablishes(initial, failureThreshold, cooldownSeconds);
      if initial != [] {
        Update(initial);
      }
    }

    /** `_available_tokens`. */
    method AvailableTokens(now: int) returns (avail: seq<string>)
      ensures avail == Available(tokens, disabled, now, cooldown)
    {
      avail := [];
      for i := 0 to |tokens|
        invariant avail == Available(tokens[..i], disabled, now, cooldown)
      {
        var token := tokens[i];
        assert tokens[..i + 1][..i] == tokens[..i];
        if !(token in disabled && now - disabled[token] < cooldown) {
          avail := avail + [token];
        }
      }
      assert tokens[..|tokens|] == tokens;
    }

    /** `get`. */
    method Get(now: int) returns (r: Option<string>)
      requires Valid()
      modifies this
      ensures Valid()
      ensures (r, State()) == GetStep(old(State()), now)
    {
      GetSpec(State(), now);
      var available := AvailableTokens(now);
      if available == [] {
        disabled := map[];
        available := AvailableTokens(now);
      }
      if available == [] {
        return None;
      }
      r := Some(available[index % |available|]);
      index := (index + 1) % |available|;
    }

    /** `mark_success`. */
    method MarkSuccess(token: Option<string>)
      requires Valid()
      modifies this
      ensures Valid()
      ensures State() == SuccessStep(old(State()), token)
    {
      SuccessSpec(State(), token, 0);
      if token.None? || token.value == "" || token.value !in tokens {
        return;
      }
      failures := failures - {token.value};
      disabled := disabled - {token.value};
    }

    /** `mark_failure`. */
    method MarkFailure(token: Option<string>, now: int)
      requires Valid()
      modifies this
      ensures Valid()
      ensures State() == FailureStep(old(State()), token, now)
    {
      FailureSpec(State(), token, now);
      if token.None? || token.value == "" || token.value !in tokens {
        return;
      }
      var count := (if token.value in failures then failures[token.value] else 0) + 1;
      failures := failures[token.value := count];
      if count >= threshold {
        disabled := disabled[token.value := now];
      }
    }

    /** `update`: deduplicate, then prune the health entries key by key (in
        whatever order the failure map yields its keys). */
    method Update(list: seq<string>)
      requires Valid()
      modifies this
      ensures Valid()
      ensures State() == UpdateStep(old(State()), list)
    {
      ghost var s0 := State();
      var unique := DedupTokens(list);
      tokens := unique;
      index := 0;
      ghost var f0, d0 := failures, disabled;
      var keys := failures.Keys;
      while keys != {}
        invariant tokens == unique && index == 0
        invariant keys <= f0.Keys
        invariant forall k :: k in failures <==> k in f0 && (k in keys || k in unique)
        invariant forall k :: k in failures ==> failures[k] == f0[k]
        invariant forall k :: k in disabled <==> k in d0 && (k !in f0 || k in keys || k in unique)
        invariant forall k :: k in disabled ==> disabled[k] == d0[k]
        decreases keys
      {
        var token :| token in keys;
        if token !in tokens {
          failures := failures - {token};
          disabled := disabled - {token};
        }
        keys := keys - {token};
      }
      assert failures == UpdateStep(old(State()), list).failures;
      assert disabled == UpdateStep(old(State()), list).disabled;
      UpdatePreserves(s0, list);
    }

    /** `contains`: under the invariant, plain membership. */
    predicate Contains(token: Option<string>)
      reads this
      ensures Valid() ==> (Contains(token) <==> token.Some? && token.value in tokens)
    {
      Listed(token, tokens)
    }
  }

  lemma AvailablePair(a: string, b: string, disabled: map<string, int>, now: int, cooldown: int)
    ensures Available([a, b], disabled, now, cooldown) ==
      (if CoolingDown(a, disabled, now, cooldown) then [] else [a]) +
      (if CoolingDown(b, disabled, now, cooldown) then [] else [b])
  {
    assert [a, b][..1] == [a];
    assert [a][..0] == [];
    assert Available([], disabled, now, cooldown) == [];
    var first := Available([a], disabled, now, cooldown);
    assert first == (if CoolingDown(a, disabled, now, cooldown) then [] else [a]);
  }

  /** Two tokens, threshold one: A, then (A failed) B, B, and once A's
      cooldown has run out, A again. */
  method CooldownScenario()
  {
    DedupPair("A", "B");
    var pool := new Pool(["A", "B"], 1, 1800);
    assert pool.State() == PoolState(["A", "B"], 0, 1, 1800, map[], map[]);
    CooldownScenarioFirstUse(pool);
  }

  lemma DedupPair(a: string, b: string)
    requires a != "" && b != "" && a != b
    ensures Dedup([a, b]) == [a, b]
  {
    assert [a][..0] == [];
    assert Dedup([a]) == [a];
    assert [a, b][..1] == [a];
    assert b !in [a];
  }

  method CooldownScenarioFirstUse(pool: Pool)
    requires pool.Valid()
    requires pool.State() == PoolState(["A", "B"], 0, 1, 1800, map[], map[])
    modifies pool
  {
    AvailablePair("A", "B", map[], 0, 1800);
    var r := pool.Get(0);
    assert r == Some("A") && pool.index == 1;
    pool.MarkFailure(Some("A"), 10);
    assert pool.State() == PoolState(["A", "B"], 1, 1, 1800, map["A" := 1], map["A" := 10]);
    CooldownScenarioAfterFailure(pool);
  }

  method CooldownScenarioAfterFailure(pool: Pool)
    requires pool.Valid()
    requires pool.State() == PoolState(["A", "B"], 1, 1, 1800, map["A" := 1], map["A" := 10])
    modifies pool
  {
    AvailablePair("A", "B", map["A" := 10], 20, 1800);
    var r := pool.Get(20);
    assert r == Some("B") && pool.index == 0;
    AvailablePair("A", "B", map["A" := 10], 30, 1800);
    r := pool.Get(30);
    assert r == Some("B") && pool.index == 0;
    AvailablePair("A", "B", map["A" := 10], 1810, 1800);
    r := pool.Get(1810);
    assert r == Some("A");
  }
}
