/**
 * The browser client's fmtp parser (`parseSdpFmtpLine`): an SDP `a=fmtp`
 * parameter string becomes a key to value map. JavaScript's
 * `String.prototype.split`, `trim` and array destructuring are written out
 * as functions; the `forEach` that fills the map is a loop.
 */
module Fmtp {
  import opened Base

  /** A parameter map: a key whose token had no `=` maps to `None`, the
      `undefined` of the source. */
  type Params = map<string, Option<string>>

  /** `s.split(sep)` for a one-character separator: the pieces between the
      separators, an empty piece at each end when `s` starts or ends with it. */
  function Split(s: string, sep: char): (r: seq<string>)
    ensures |r| >= 1
  {
    if |s| == 0 then [""]
    else if s[0] == sep then [""] + Split(s[1..], sep)
    else
      var rest := Split(s[1..], sep);
      [[s[0]] + rest[0]] + rest[1..]
  }

  /** The inverse of `Split`: the pieces glued back with the separator. */
  function Join(pieces: seq<string>, sep: char): string
    requires |pieces| >= 1
  {
    if |pieces| == 1 then pieces[0] else pieces[0] + [sep] + Join(pieces[1..], sep)
  }

  lemma {:induction false} SplitJoin(s: string, sep: char)
    ensures Join(Split(s, sep), sep) == s
    ensures forall i :: 0 <= i < |Split(s, sep)| ==> sep !in Split(s, sep)[i]
  {
    if |s| > 0 {
      SplitJoin(s[1..], sep);
      var rest := Split(s[1..], sep);
      if s[0] == sep {
        assert Split(s, sep)[1..] == rest;
      } else {
        var r := Split(s, sep);
        assert r[0] == [s[0]] + rest[0];
        if |rest| > 1 {
          assert r[1..] == rest[1..];
          assert Join(r, sep) == r[0] + [sep] + Join(rest[1..], sep);
          assert Join(rest, sep) == rest[0] + [sep] + Join(rest[1..], sep);
        }
        assert s == [s[0]] + s[1..];
        forall i | 0 <= i < |r| ensures sep !in r[i] {
          if i > 0 { assert r[i] == rest[i]; }
        }
      }
    }
  }

  /** Text without the separator splits into itself alone. */
  lemma {:induction false} SplitNoSeparator(s: string, sep: char)
    requires sep !in s
    ensures Split(s, sep) == [s]
  {
    if |s| > 0 {
      assert sep !in s[1..];
      SplitNoSeparator(s[1..], sep);
      assert [s[0]] + s[1..] == s;
    }
  }

  /** The first piece is `head` up to the first separator; the rest is the
      split of what follows it. */
  lemma {:induction false} SplitAtFirst(head: string, sep: char, tail: string)
    requires sep !in head
    ensures Split(head + [sep] + tail, sep) == [head] + Split(tail, sep)
  {
    if |head| == 0 {
      assert head + [sep] + tail == [sep] + tail;
      assert ([sep] + tail)[1..] == tail;
    } else {
      var s := head + [sep] + tail;
      assert s[1..] == head[1..] + [sep] + tail;
      assert sep !in head[1..];
      SplitAtFirst(head[1..], sep, tail);
      assert [head[0]] + head[1..] == head;
    }
  }

  /** The characters `String.prototype.trim` removes: ECMAScript WhiteSpace
      and LineTerminator code points. */
  predicate IsTrimmed(c: char) {
    c == '\t' || c == '\n' || c == '\U{000B}' || c == '\U{000C}' || c == '\r' || c == ' '
    || c == '\U{00A0}' || c == '\U{1680}' || ('\U{2000}' <= c <= '\U{200A}')
    || c == '\U{2028}' || c == '\U{2029}' || c == '\U{202F}' || c == '\U{205F}'
    || c == '\U{3000}' || c == '\U{FEFF}'
  }

  function TrimStart(s: string): (r: string)
    ensures |r| <= |s| && r == s[|s| - |r|..]
    ensures |r| > 0 ==> !IsTrimmed(r[0])
  {
    if |s| > 0 && IsTrimmed(s[0]) then TrimStart(s[1..]) else s
  }

  function TrimEnd(s: string): (r: string)
    ensures |r| <= |s| && r == s[..|r|]
    ensures |r| > 0 ==> !IsTrimmed(r[|r| - 1])
  {
    if |s| > 0 && IsTrimmed(s[|s| - 1]) then TrimEnd(s[..|s| - 1]) else s
  }

  function Trim(s: string): string {
    TrimEnd(TrimStart(s))
  }

  /** `const [key, value] = token.trim().split('=')`: the key is the first
      piece, the value the second piece or `undefined`. */
  function KeyOf(token: string): string {
    Split(Trim(token), '=')[0]
  }

  function ValueOf(token: string): Option<string> {
    var pieces := Split(Trim(token), '=');
    if |pieces| >= 2 then Some(pieces[1]) else None
  }

  /** The one key an assignment on an object literal does not record: on
      `{}`, `paramsMap['__proto__'] = v` goes to the prototype setter, which
      ignores a string or `undefined`, so no own property appears. */
  const ProtoKey: string := "__proto__"

  /** The map after each token's key has been set to its value, in order. */
  function Store<T>(tokens: seq<T>, key: T -> string, value: T -> Option<string>): Params {
    if |tokens| == 0 then map[]
    else Store(tokens[..|tokens| - 1], key, value)[key(tokens[|tokens| - 1]) := value(tokens[|tokens| - 1])]
  }

  /** The map after the tokens have been stored in order, without the key
      that never becomes an own property. */
  function ParamsOf(tokens: seq<string>): Params {
    Store(tokens, KeyOf, ValueOf) - {ProtoKey}
  }

  /** The model of `parseSdpFmtpLine`; `None` stands for an `undefined` line. */
  function FmtpParams(line: Option<string>): Params {
    match line
    case None => map[]
    case Some(s) => ParamsOf(Split(s, ';'))
  }

  /** parseSdpFmtpLine: fills the map token by token, as the `forEach` does. */
  method ParseSdpFmtpLine(sdpFmtpLine: Option<string>) returns (paramsMap: Params)
    ensures paramsMap == FmtpParams(sdpFmtpLine)
  {
    paramsMap := map[];
    if sdpFmtpLine.None? {
      return;
    }
    var tokens := Split(sdpFmtpLine.value, ';');
    var i := 0;
    while i < |tokens|
      invariant 0 <= i <= |tokens|
      invariant paramsMap == Store(tokens[..i], KeyOf, ValueOf) - {ProtoKey}
    {
      var pieces := Split(Trim(tokens[i]), '=');
      var key := pieces[0];
      var value := if |pieces| >= 2 then Some(pieces[1]) else None;
      var next := if key == ProtoKey then paramsMap else paramsMap[key := value];
      assert next == Store(tokens[..i + 1], KeyOf, ValueOf) - {ProtoKey} by {
        assert key == KeyOf(tokens[i]) && value == ValueOf(tokens[i]);
        StoreSkippingProto(tokens, i);
      }
      paramsMap := next;
      i := i + 1;
    }
    assert tokens[..|tokens|] == tokens;
  }

  /** One parsing step: a `__proto__` token leaves the map as it was, any other token is stored. */
  lemma StoreSkippingProto(tokens: seq<string>, i: nat)
    requires i < |tokens|
    ensures var before := Store(tokens[..i], KeyOf, ValueOf);
      Store(tokens[..i + 1], KeyOf, ValueOf) - {ProtoKey}
      == if KeyOf(tokens[i]) == ProtoKey then before - {ProtoKey}
         else (before - {ProtoKey})[KeyOf(tokens[i]) := ValueOf(tokens[i])]
  {
    StorePrefix(tokens, i, KeyOf, ValueOf);
    SkipProtoKey(Store(tokens[..i], KeyOf, ValueOf), KeyOf(tokens[i]), ValueOf(tokens[i]));
  }

  /** Skipping `__proto__` while storing is dropping it at the end. */
  lemma SkipProtoKey(m: Params, k: string, v: Option<string>)
    ensures m[k := v] - {ProtoKey} == if k == ProtoKey then m - {ProtoKey} else (m - {ProtoKey})[k := v]
  {
  }

  /** Storing one more token. */
  lemma StorePrefix<T>(tokens: seq<T>, i: nat, key: T -> string, value: T -> Option<string>)
    requires i < |tokens|
    ensures Store(tokens[..i + 1], key, value) == Store(tokens[..i], key, value)[key(tokens[i]) := value(tokens[i])]
  {
    assert tokens[..i + 1][..i] == tokens[..i];
  }

  lemma {:induction false} StoreKeys<T>(tokens: seq<T>, key: T -> string, value: T -> Option<string>, k: string)
    ensures k in Store(tokens, key, value) <==> exists i :: 0 <= i < |tokens| && key(tokens[i]) == k
  {
    if |tokens| > 0 {
      var n := |tokens|;
      var init := tokens[..n - 1];
      StoreKeys(init, key, value, k);
      if k in Store(tokens, key, value) {
        if k != key(tokens[n - 1]) {
          var i :| 0 <= i < |init| && key(init[i]) == k;
          assert tokens[i] == init[i];
        }
      } else {
        forall i | 0 <= i < n ensures key(tokens[i]) != k {
          if i < n - 1 {
            assert init[i] == tokens[i];
          }
        }
      }
    }
  }

  lemma {:induction false} StoreLastWins<T>(tokens: seq<T>, key: T -> string, value: T -> Option<string>, j: nat)
    requires j < |tokens|
    requires forall i :: j < i < |tokens| ==> key(tokens[i]) != key(tokens[j])
    ensures key(tokens[j]) in Store(tokens, key, value)
    ensures Store(tokens, key, value)[key(tokens[j])] == value(tokens[j])
  {
    var n := |tokens|;
    if j < n - 1 {
      var init := tokens[..n - 1];
      assert init[j] == tokens[j];
      forall i | j < i < |init| ensures key(init[i]) != key(init[j]) {
        assert init[i] == tokens[i];
      }
      StoreLastWins(init, key, value, j);
    }
  }

  /** Every token's key but `__proto__` is recorded, and nothing else is. */
  lemma ParamsKeys(tokens: seq<string>, k: string)
    ensures k in ParamsOf(tokens) <==> k != ProtoKey && exists i :: 0 <= i < |tokens| && KeyOf(tokens[i]) == k
  {
    StoreKeys(tokens, KeyOf, ValueOf, k);
  }

  /** On a duplicate key the last token with that key decides its value: the
      value of key `k` is that of token `j` when no later token has key `k`. */
  lemma ParamsLastWins(tokens: seq<string>, j: nat)
    requires j < |tokens| && KeyOf(tokens[j]) != ProtoKey
    requires forall i :: j < i < |tokens| ==> KeyOf(tokens[i]) != KeyOf(tokens[j])
    ensures KeyOf(tokens[j]) in ParamsOf(tokens)
    ensures ParamsOf(tokens)[KeyOf(tokens[j])] == ValueOf(tokens[j])
  {
    StoreLastWins(tokens, KeyOf, ValueOf, j);
  }

  /** A token without `=` records its key with the value `undefined`. */
  lemma TokenWithoutEquals(token: string)
    requires '=' !in Trim(token)
    ensures KeyOf(token) == Trim(token) && ValueOf(token) == None
  {
    SplitNoSeparator(Trim(token), '=');
  }

  /** For a trimmed token `key=value=more` the value is only the text between
      the first and the second `=`; it is kept as text, uncoerced. */
  lemma TokenValueBetweenEquals(token: string, key: string, value: string, more: string)
    requires Trim(token) == key + "=" + value + "=" + more
    requires '=' !in key && '=' !in value
    ensures KeyOf(token) == key && ValueOf(token) == Some(value)
  {
    assert key + "=" + value + "=" + more == key + ['='] + (value + ['='] + more);
    SplitAtFirst(key, '=', value + ['='] + more);
    SplitAtFirst(value, '=', more);
  }

  /** For a trimmed token `key=value` without a second `=`. */
  lemma TokenKeyValue(token: string, key: string, value: string)
    requires Trim(token) == key + "=" + value
    requires '=' !in key && '=' !in value
    ensures KeyOf(token) == key && ValueOf(token) == Some(value)
  {
    assert key + "=" + value == key + ['='] + value;
    SplitAtFirst(key, '=', value);
    SplitNoSeparator(value, '=');
  }
}
