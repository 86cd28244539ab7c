/** The Redis key builders, and a parser that undoes the composite one. */
module CacheKeys {
  import opened Wrappers

  // ---------------------------------------------------------------- decimals

  function Digit(d: nat): char
    requires d < 10
  {
    '0' + d as char
  }

  predicate IsDigit(c: char) {
    '0' <= c <= '9'
  }

  /** `str(n)` */
  function Decimal(n: nat): (s: string)
    ensures s != [] && forall i :: 0 <= i < |s| ==> IsDigit(s[i])
  {
    if n < 10 then [Digit(n)] else Decimal(n / 10) + [Digit(n % 10)]
  }

  function DecimalInt(i: int): string {
    if i >= 0 then Decimal(i) else "-" + Decimal(-i)
  }

  function Number(s: string): nat
    requires forall i :: 0 <= i < |s| ==> IsDigit(s[i])
  {
    if s == [] then 0
    else
      var last := s[|s| - 1];
      assert IsDigit(last);
      Number(s[..|s| - 1]) * 10 + (last as int - '0' as int)
  }

  lemma {:induction false} NumberOfDecimal(n: nat)
    ensures Number(Decimal(n)) == n
  {
    if n >= 10 {
      NumberOfDecimal(n / 10);
      assert Decimal(n)[..|Decimal(n)| - 1] == Decimal(n / 10);
    }
  }

  lemma DecimalIntSign(i: int)
    ensures DecimalInt(i) != []
    ensures if i < 0 then DecimalInt(i)[0] == '-' else IsDigit(DecimalInt(i)[0])
  {
  }

  lemma DecimalIntInjective(i: int, j: int)
    requires DecimalInt(i) == DecimalInt(j)
    ensures i == j
  {
    DecimalIntSign(i);
    DecimalIntSign(j);
    if i >= 0 {
      NumberOfDecimal(i);
      NumberOfDecimal(j);
    } else {
      NumberOfDecimal(-i);
      NumberOfDecimal(-j);
      assert DecimalInt(i)[1..] == Decimal(-i) && DecimalInt(j)[1..] == Decimal(-j);
    }
  }

  // ---------------------------------------------------------------- key builders

  const ROLE_PREFIX := "rbac:role:"
  const USER_PREFIX := "rbac:user:"
  const SMALL_PREFIX := "i18n:small:"
  const LARGE_PREFIX := "i18n:large:"

  function RoleKey(id: int): string { ROLE_PREFIX + DecimalInt(id) }
  function RoleListKey(): string { ROLE_PREFIX + "list" }
  function UserKey(id: int): string { USER_PREFIX + DecimalInt(id) }
  function UserListKey(): string { USER_PREFIX + "list" }
  function SmallKey(key: string): string { SMALL_PREFIX + key }
  function SmallListKey(): string { SMALL_PREFIX + "list" }
  function LargeKey(key1: string, key2: string): string { LARGE_PREFIX + MeasuredPair(key1, key2) }
  function LargeListKey(): string { LARGE_PREFIX + "list" }

  /** A string with its length in front. */
  function Measured(s: string): string {
    Decimal(|s|) + ":" + s
  }

  function MeasuredPair(key1: string, key2: string): string {
    Measured(key1) + "|" + Measured(key2)
  }

  // ---------------------------------------------------------------- parsing composite keys

  /** The digits at the head of `s`. */
  function LeadingDigits(s: string): (n: nat)
    ensures n <= |s| && forall i :: 0 <= i < n ==> IsDigit(s[i])
    ensures n < |s| ==> !IsDigit(s[n])
  {
    if s == [] || !IsDigit(s[0]) then 0 else 1 + LeadingDigits(s[1..])
  }

  /** Undo `Measured` at the head of `s`: the measured string and what follows it. */
  function TakeMeasured(s: string): Option<(string, string)> {
    var n := LeadingDigits(s);
    if n == 0 || n == |s| || s[n] != ':' then None
    else
      var length := Number(s[..n]);
      var rest := s[n + 1..];
      if |rest| < length then None else Some((rest[..length], rest[length..]))
  }

  function TakePair(s: string): Option<(string, string)> {
    match TakeMeasured(s)
    case None => None
    case Some((key1, rest)) =>
      if rest == [] || rest[0] != '|' then None
      else
        match TakeMeasured(rest[1..])
        case None => None
        case Some((key2, tail)) => if tail == [] then Some((key1, key2)) else None
  }

  function ParseLargeKey(s: string): Option<(string, string)> {
    if LARGE_PREFIX <= s then TakePair(s[|LARGE_PREFIX|..]) else None
  }

  lemma {:induction false} LeadingDigitsAre(digits: string, rest: string)
    requires forall i :: 0 <= i < |digits| ==> IsDigit(digits[i])
    requires rest != [] && !IsDigit(rest[0])
    ensures LeadingDigits(digits + rest) == |digits|
  {
    if digits == [] {
      assert digits + rest == rest;
    } else {
      LeadingDigitsAre(digits[1..], rest);
      assert (digits + rest)[1..] == digits[1..] + rest;
    }
  }

  lemma TakeMeasuredUndoes(s: string, tail: string)
    ensures TakeMeasured(Measured(s) + tail) == Some((s, tail))
  {
    var d := Decimal(|s|);
    var whole := Measured(s) + tail;
    assert whole == d + (":" + s + tail);
    LeadingDigitsAre(d, ":" + s + tail);
    assert whole[..|d|] == d;
    NumberOfDecimal(|s|);
    var rest := whole[|d| + 1..];
    assert rest == s + tail;
    assert rest[..|s|] == s && rest[|s|..] == tail;
  }

  lemma TakePairUndoes(key1: string, key2: string)
    ensures TakePair(MeasuredPair(key1, key2)) == Some((key1, key2))
  {
    hide TakeMeasured, Measured;
    var tail := "|" + Measured(key2);
    assert MeasuredPair(key1, key2) == Measured(key1) + tail;
    TakeMeasuredUndoes(key1, tail);
    var rest := tail[1..];
    assert rest == Measured(key2) + "";
    TakeMeasuredUndoes(key2, "");
  }

  /** The composite key is uniquely decodable, whatever characters its parts contain. */
  lemma LargeKeyRoundTrip(key1: string, key2: string)
    ensures ParseLargeKey(LargeKey(key1, key2)) == Some((key1, key2))
  {
    TakePairUndoes(key1, key2);
    assert LargeKey(key1, key2)[|LARGE_PREFIX|..] == MeasuredPair(key1, key2);
  }

  lemma LargeKeyInjective(a1: string, a2: string, b1: string, b2: string)
    requires LargeKey(a1, a2) == LargeKey(b1, b2)
    ensures a1 == b1 && a2 == b2
  {
    LargeKeyRoundTrip(a1, a2);
    LargeKeyRoundTrip(b1, b2);
  }

  lemma LargeListKeyIsNoItemKey(key1: string, key2: string)
    ensures LargeKey(key1, key2) != LargeListKey()
  {
  }

  // ---------------------------------------------------------------- all keys together

  /** What a cached value is a copy of. */
  datatype Cell =
    | RoleItem(id: int)
    | RoleList
    | UserItem(id: int)
    | UserList
    | SmallItem(key: string)
    | SmallList
    | LargeItem(key1: string, key2: string)
    | LargeList

  function KeyOf(c: Cell): string {
    match c
    case RoleItem(id) => RoleKey(id)
    case RoleList => RoleListKey()
    case UserItem(id) => UserKey(id)
    case UserList => UserListKey()
    case SmallItem(key) => SmallKey(key)
    case SmallList => SmallListKey()
    case LargeItem(key1, key2) => LargeKey(key1, key2)
    case LargeList => LargeListKey()
  }

  function Family(c: Cell): string {
    match c
    case RoleItem(_) => ROLE_PREFIX
    case RoleList => ROLE_PREFIX
    case UserItem(_) => USER_PREFIX
    case UserList => USER_PREFIX
    case SmallItem(_) => SMALL_PREFIX
    case SmallList => SMALL_PREFIX
    case LargeItem(_, _) => LARGE_PREFIX
    case LargeList => LARGE_PREFIX
  }

  function Suffix(c: Cell): string {
    match c
    case RoleItem(id) => DecimalInt(id)
    case UserItem(id) => DecimalInt(id)
    case SmallItem(key) => key
    case LargeItem(key1, key2) => MeasuredPair(key1, key2)
    case _ => "list"
  }

  lemma SplitPrefix(f: string, s: string, g: string, t: string)
    requires |f| > 5 && |g| > 5 && f + s == g + t
    ensures f[5] == g[5]
    ensures |f| == |g| ==> s == t
  {
    assert (f + s)[5] == f[5] && (g + t)[5] == g[5];
    if |f| == |g| {
      assert (f + s)[|f|..] == s && (g + t)[|g|..] == t;
    }
  }

  lemma SameFamily(a: Cell, b: Cell)
    requires KeyOf(a) == KeyOf(b)
    ensures Family(a) == Family(b) && Suffix(a) == Suffix(b)
  {
    assert KeyOf(a) == Family(a) + Suffix(a) && KeyOf(b) == Family(b) + Suffix(b);
    SplitPrefix(Family(a), Suffix(a), Family(b), Suffix(b));
  }

  /** No number, and no measured pair, is spelled "list". */
  lemma ItemSuffixIsNotList(c: Cell)
    requires c.RoleItem? || c.UserItem? || c.LargeItem?
    ensures Suffix(c) != "list"
  {
    if c.LargeItem? {
      assert IsDigit(Measured(c.key1)[0]);
      assert Suffix(c)[0] == Measured(c.key1)[0];
    } else {
      DecimalIntSign(c.id);
    }
  }

  /** Two different values share a Redis key in one case only: the small translation whose
      key is "list", and the list of small translations. */
  lemma KeysCollideOnlyOnSmallList(a: Cell, b: Cell)
    ensures KeyOf(a) == KeyOf(b) <==>
              a == b || {a, b} == {SmallItem("list"), SmallList}
  {
    if KeyOf(a) == KeyOf(b) {
      SameFamily(a, b);
      if a.RoleItem? || a.UserItem? || a.LargeItem? { ItemSuffixIsNotList(a); }
      if b.RoleItem? || b.UserItem? || b.LargeItem? { ItemSuffixIsNotList(b); }
      match a
      case RoleItem(i) => DecimalIntInjective(i, b.id);
      case UserItem(i) => DecimalIntInjective(i, b.id);
      case LargeItem(k1, k2) => LargeKeyInjective(k1, k2, b.key1, b.key2);
      case _ =>
    }
  }
}
