/** JSON Pointers (RFC 6901), and the percent-encoding they have in a URI fragment (section 6). */
module JsonPointers {
  import opened Wrappers
  import opened Json
  import opened CacheKeys

  // ---------------------------------------------------------------- percent-encoding

  function HexValue(c: char): Option<nat> {
    if '0' <= c <= '9' then Some(c as int - '0' as int)
    else if 'a' <= c <= 'f' then Some(c as int - 'a' as int + 10)
    else if 'A' <= c <= 'F' then Some(c as int - 'A' as int + 10)
    else None
  }

  /** The octet of a `%XY` at the head of `s`. */
  function Octet(s: string): (b: Option<nat>)
    ensures b.Some? ==> |s| >= 3 && b.value < 256
  {
    if |s| >= 3 && s[0] == '%' && HexValue(s[1]).Some? && HexValue(s[2]).Some? then
      Some(16 * HexValue(s[1]).value + HexValue(s[2]).value)
    else None
  }

  /** The six bits of a continuation octet. */
  function Continuation(s: string): (b: Option<nat>)
    ensures b.Some? ==> |s| >= 3 && b.value < 64
  {
    match Octet(s)
    case None => None
    case Some(b) => if 0x80 <= b < 0xC0 then Some(b - 0x80) else None
  }

  predicate IsScalar(code: nat) { code < 0xD800 || 0xE000 <= code < 0x11_0000 }

  /** The UTF-8 character whose octets stand percent-encoded at the head of `s`, and their length. */
  function EncodedChar(s: string): (r: Option<(char, nat)>)
    ensures r.Some? ==> 3 <= r.value.1 <= |s|
  {
    match Octet(s)
    case None => None
    case Some(b) =>
      if b < 0x80 then Some((b as char, 3))
      else
        match Continuation(s[3..])
        case None => None
        case Some(c1) =>
          if 0xC2 <= b < 0xE0 then Some((((b - 0xC0) * 64 + c1) as char, 6))
          else if b < 0xE0 then None
          else
            match Continuation(s[6..])
            case None => None
            case Some(c2) =>
              if b < 0xF0 then
                var code := (b - 0xE0) * 4096 + c1 * 64 + c2;
                if code >= 0x800 && IsScalar(code) then Some((code as char, 9)) else None
              else
                match Continuation(s[9..])
                case None => None
                case Some(c3) =>
                  var code := (b - 0xF0) * 262144 + c1 * 4096 + c2 * 64 + c3;
                  if code >= 0x1_0000 && IsScalar(code) then Some((code as char, 12)) else None
  }

  function Prepend(head: string, tail: Option<string>): Option<string> {
    if tail.Some? then Some(head + tail.value) else None
  }

  /** A fragment with its percent sequences undone; nothing if one of them encodes no character. */
  function PercentDecode(s: string): Option<string> {
    if s == "" then Some("")
    else if s[0] != '%' then Prepend([s[0]], PercentDecode(s[1..]))
    else
      match EncodedChar(s)
      case None => None
      case Some((c, n)) => Prepend([c], PercentDecode(s[n..]))
  }

  lemma {:induction false} DecodeShrinks(s: string)
    requires PercentDecode(s).Some?
    ensures if '%' in s then |PercentDecode(s).value| < |s| else PercentDecode(s).value == s
  {
    if s != "" {
      if s[0] == '%' {
        DecodeShrinks(s[EncodedChar(s).value.1..]);
      } else {
        DecodeShrinks(s[1..]);
        assert s == [s[0]] + s[1..];
      }
    }
  }

  lemma {:induction false} DecodeAfter(plain: string, s: string)
    requires '%' !in plain
    ensures PercentDecode(plain + s) == Prepend(plain, PercentDecode(s))
  {
    if plain == "" {
      assert plain + s == s;
      assert forall u: string :: plain + u == u;
    } else {
      DecodeAfter(plain[1..], s);
      assert (plain + s)[1..] == plain[1..] + s;
      assert forall u: string :: plain + u == [plain[0]] + (plain[1..] + u);
    }
  }

  /** A character that is no part of a percent sequence ends every one. */
  lemma OctetEnds(a: string, rest: string)
    requires rest != "" && rest[0] == '_'
    ensures Octet(a + rest) == Octet(a) && Continuation(a + rest) == Continuation(a)
  {
    if |a| < 3 { assert (a + rest)[|a|] == '_'; }
  }

  lemma EncodedCharEnds(a: string, rest: string)
    requires rest != "" && rest[0] == '_'
    ensures EncodedChar(a + rest) == EncodedChar(a)
  {
    OctetEnds(a, rest);
    if |a| >= 3 {
      assert (a + rest)[3..] == a[3..] + rest;
      OctetEnds(a[3..], rest);
    }
    if |a| >= 6 {
      assert (a + rest)[6..] == a[6..] + rest;
      OctetEnds(a[6..], rest);
    }
    if |a| >= 9 {
      assert (a + rest)[9..] == a[9..] + rest;
      OctetEnds(a[9..], rest);
    }
  }

  /** What two parts joined by an underscore come to, part by part. */
  function Joined(a: Option<string>, b: Option<string>): Option<string> {
    if a.Some? && b.Some? then Some(a.value + "_" + b.value) else None
  }

  lemma JoinedPrepend(head: string, a: Option<string>, b: Option<string>)
    ensures Joined(Prepend(head, a), b) == Prepend(head, Joined(a, b))
  {
    if a.Some? && b.Some? { assert (head + a.value) + "_" + b.value == head + (a.value + "_" + b.value); }
  }

  lemma {:induction false} DecodeJoined(a: string, b: string)
    ensures PercentDecode(a + "_" + b) == Joined(PercentDecode(a), PercentDecode(b))
  {
    var whole := a + "_" + b;
    if a == "" {
      assert whole[1..] == b && whole[0] == '_';
      assert forall u: string :: "" + "_" + u == "_" + u;
    } else if a[0] != '%' {
      DecodeJoined(a[1..], b);
      JoinedPrepend([a[0]], PercentDecode(a[1..]), PercentDecode(b));
      assert whole[1..] == a[1..] + "_" + b && whole[0] == a[0];
    } else {
      assert whole == a + ("_" + b);
      EncodedCharEnds(a, "_" + b);
      if EncodedChar(a).Some? {
        var n := EncodedChar(a).value.1;
        DecodeJoined(a[n..], b);
        JoinedPrepend([EncodedChar(a).value.0], PercentDecode(a[n..]), PercentDecode(b));
        assert whole[n..] == a[n..] + "_" + b;
      }
    }
  }

  // ---------------------------------------------------------------- pointers

  /** A reference token with `~1` and `~0` undone; nothing if a tilde stands alone. */
  function Unescape(s: string): Option<string> {
    if s == "" then Some("")
    else if s[0] != '~' then Prepend([s[0]], Unescape(s[1..]))
    else if |s| > 1 && (s[1] == '0' || s[1] == '1') then Prepend(if s[1] == '0' then "~" else "/", Unescape(s[2..]))
    else None
  }

  /** `s` split at its slashes. */
  function Tokens(s: string): (t: seq<string>)
    ensures |t| > 0
  {
    if s == "" then [""]
    else
      var rest := Tokens(s[1..]);
      if s[0] == '/' then [""] + rest else [[s[0]] + rest[0]] + rest[1..]
  }

  /** The value a pointer leads to; an array index is written in decimal without leading zeros. */
  ghost function Descend(j: Json, tokens: seq<string>): Option<Json>
    decreases |tokens|
  {
    if tokens == [] then Some(j)
    else
      match Unescape(tokens[0])
      case None => None
      case Some(key) =>
        match Child(j, key)
        case None => None
        case Some(child) => Descend(child, tokens[1..])
  }

  ghost function Child(j: Json, key: string): Option<Json> {
    match j
    case Obj(fields) => if key in fields then Some(fields[key]) else None
    case Arr(items) =>
      if exists i :: 0 <= i < |items| && Decimal(i) == key then
        var i :| 0 <= i < |items| && Decimal(i) == key;
        Some(items[i])
      else None
    case _ => None
  }

  lemma ChildOfArray(items: seq<Json>, i: nat)
    requires i < |items|
    ensures Child(Arr(items), Decimal(i)) == Some(items[i])
  {
    NumberOfDecimal(i);
    var k :| 0 <= k < |items| && Decimal(k) == Decimal(i) && Child(Arr(items), Decimal(i)) == Some(items[k]);
    NumberOfDecimal(k);
  }

  lemma {:induction false} UnescapeAfter(plain: string, s: string)
    requires '~' !in plain
    ensures Unescape(plain + s) == Prepend(plain, Unescape(s))
  {
    if plain == "" {
      assert plain + s == s;
      assert forall u: string :: plain + u == u;
    } else {
      UnescapeAfter(plain[1..], s);
      assert (plain + s)[1..] == plain[1..] + s;
      assert forall u: string :: plain + u == [plain[0]] + (plain[1..] + u);
    }
  }

  lemma {:induction false} UnescapeShrinks(s: string)
    requires Unescape(s).Some?
    ensures if '~' in s then |Unescape(s).value| < |s| else Unescape(s).value == s
  {
    if s != "" {
      if s[0] == '~' {
        UnescapeShrinks(s[2..]);
      } else {
        UnescapeShrinks(s[1..]);
        assert s == [s[0]] + s[1..];
      }
    }
  }

  lemma {:induction false} UnescapeJoined(a: string, b: string)
    ensures Unescape(a + "_" + b) == Joined(Unescape(a), Unescape(b))
  {
    var whole := a + "_" + b;
    if a == "" {
      assert whole[1..] == b && whole[0] == '_';
      assert forall u: string :: "" + "_" + u == "_" + u;
    } else if a[0] != '~' {
      UnescapeJoined(a[1..], b);
      JoinedPrepend([a[0]], Unescape(a[1..]), Unescape(b));
      assert whole[1..] == a[1..] + "_" + b;
    } else if |a| > 1 {
      UnescapeJoined(a[2..], b);
      JoinedPrepend(if a[1] == '0' then "~" else "/", Unescape(a[2..]), Unescape(b));
      assert whole[2..] == a[2..] + "_" + b && whole[1] == a[1];
    } else {
      assert whole[1] == '_';
    }
  }

  lemma {:induction false} TokensAfter(plain: string, s: string)
    requires '/' !in plain
    ensures Tokens(plain + s) == [plain + Tokens(s)[0]] + Tokens(s)[1..]
  {
    if plain == "" {
      assert plain + s == s && plain + Tokens(s)[0] == Tokens(s)[0];
      assert Tokens(s) == [Tokens(s)[0]] + Tokens(s)[1..];
    } else {
      TokensAfter(plain[1..], s);
      assert (plain + s)[1..] == plain[1..] + s;
      assert plain + Tokens(s)[0] == [plain[0]] + (plain[1..] + Tokens(s)[0]);
    }
  }

  /** A slash makes a second token. */
  lemma {:induction false} SlashSplits(s: string)
    ensures |Tokens(s)| == 1 <==> '/' !in s
    ensures '/' !in s ==> Tokens(s) == [s]
  {
    if s != "" {
      SlashSplits(s[1..]);
      assert s == [s[0]] + s[1..];
    }
  }

  /** Up to its first slash a string decides its first token. */
  lemma {:induction false} FirstTokenEnds(s: string, rest: string)
    requires '/' in s
    ensures |Tokens(s + rest)[0]| < |s|
  {
    if s[0] != '/' {
      FirstTokenEnds(s[1..], rest);
      assert (s + rest)[1..] == s[1..] + rest;
    }
  }
}
