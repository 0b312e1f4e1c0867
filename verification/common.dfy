/** Vocabulary shared by the whole model: optional values, the exceptions the
    ORM and the views raise, the shape of a view's reply, and the small string
    helpers the views apply to request parameters (comma splitting and the
    `isdigit` filter). */
module Common {

  datatype Option<T> = None | Some(value: T) {
    function GetOr(default: T): T {
      match this
      case Some(v) => v
      case None => default
    }
  }

  /** The database constraint whose violation raises `IntegrityError`. */
  datatype Constraint =
    | ShopUserUnique          // Shop.user is a one-to-one field
    | CategoryPrimaryKey      // a category id given by the feed is already taken
    | ForeignKey              // a referenced row does not exist
    | ProductInfoUnique       // (product, shop, external_id)
    | ProductParameterUnique  // (product_info, parameter)
    | OrderItemUnique         // (order, product_info)
    | NonNegative             // the CHECK behind a PositiveIntegerField
    | EmailUnique             // User.email

  /** Why a `ValueError` is raised. */
  datatype ValueProblem = NotANumber | EmailNotSet | NotStaff | NotSuperuser

  /** An exception raised while a view or task runs. */
  datatype Fault =
    | IntegrityError(constraint: Constraint)
    | MultipleObjectsReturned
    | FeedUnavailable      // the fetch or the YAML parse failed
    | KeyError             // a request entry or the partner document lacks a key the code indexes
    | ValueError(problem: ValueProblem)

  /** What the `Error`/`Errors` field of a failed reply reports. */
  datatype ErrorKind =
    | NotAuthenticated
    | ShopsOnly
    | MissingArguments
    | InvalidUrl
    | BadFormat
    | InvalidItem
    | Violated(constraint: Constraint)
    | BadArguments
    | InvalidContact

  datatype Body = Empty | Count(n: nat) | Error(kind: ErrorKind)

  /** The outcome of a view: a JSON reply `{Status, ...}` with its HTTP code,
      an exception that escapes the view (a server error), or no reply at all
      (the view falls off its end and returns None). */
  datatype Reply =
    | Json(code: nat, status: bool, body: Body)
    | Raised(fault: Fault)
    | NoResponse

  /** One field of a decoded JSON object: missing, an int, or anything else. */
  datatype JsonField = Absent | Int(v: int) | NotInt

  /** A request parameter is truthy when present and non-empty. */
  predicate Truthy(p: Option<string>) {
    p.Some? && p.value != ""
  }

  predicate IsDigit(c: char) {
    '0' <= c <= '9'
  }

  predicate AllDigits(s: string) {
    forall i :: 0 <= i < |s| ==> IsDigit(s[i])
  }

  /** `str.isdigit()` restricted to ASCII: non-empty and only digits. */
  predicate IsDigits(s: string) {
    |s| > 0 && AllDigits(s)
  }

  /** The number a digit string denotes, as `int(s)` computes it. */
  function DigitsValue(s: string): nat
    requires AllDigits(s)
  {
    if |s| == 0 then 0
    else 10 * DigitsValue(s[..|s| - 1]) + ((s[|s| - 1] as int) - ('0' as int))
  }

  /** The decimal rendering of a number, without leading zeros. */
  function Decimal(n: nat): (r: string)
    ensures IsDigits(r)
    ensures DigitsValue(r) == n
  {
    var d := [(('0' as int) + n % 10) as char];
    if n < 10 then d
    else
      var r := Decimal(n / 10) + d;
      assert r[..|r| - 1] == Decimal(n / 10);
      r
  }

  /** `s.split(sep)`: the pieces between separators, always at least one. */
  function Split(s: string, sep: char): (r: seq<string>)
    ensures |r| >= 1
    ensures forall i :: 0 <= i < |r| ==> sep !in r[i]
  {
    if |s| == 0 then [""]
    else if s[0] == sep then [""] + Split(s[1..], sep)
    else
      var rest := Split(s[1..], sep);
      [[s[0]] + rest[0]] + rest[1..]
  }

  /** `sep.join(parts)`. */
  function Join(parts: seq<string>, sep: char): string
    requires |parts| >= 1
  {
    if |parts| == 1 then parts[0] else parts[0] + [sep] + Join(parts[1..], sep)
  }

  /** Splitting loses nothing: joining the pieces gives the string back. */
  lemma {:induction false} JoinSplit(s: string, sep: char)
    ensures Join(Split(s, sep), sep) == s
  {
    if |s| == 0 {
    } else if s[0] == sep {
      JoinSplit(s[1..], sep);
      assert Split(s, sep)[1..] == Split(s[1..], sep);
    } else {
      var rest := Split(s[1..], sep);
      JoinSplit(s[1..], sep);
      if |rest| == 1 {
        assert Split(s, sep) == [[s[0]] + rest[0]];
      } else {
        assert Split(s, sep)[1..] == rest[1..];
        assert Join(rest, sep) == rest[0] + [sep] + Join(rest[1..], sep);
      }
    }
  }

  /** Splitting undoes joining when no piece contains the separator. */
  lemma {:induction false} SplitJoin(parts: seq<string>, sep: char)
    requires |parts| >= 1
    requires forall i :: 0 <= i < |parts| ==> sep !in parts[i]
    ensures Split(Join(parts, sep), sep) == parts
  {
    SplitPiece(parts[0], sep, if |parts| == 1 then None else Some(Join(parts[1..], sep)));
    if |parts| > 1 {
      SplitJoin(parts[1..], sep);
      assert parts == [parts[0]] + parts[1..];
    }
  }

  /** Splitting `p` (free of separators), optionally followed by a separator
      and a tail, yields `p` and then the pieces of the tail. */
  lemma {:induction false} SplitPiece(p: string, sep: char, tail: Option<string>)
    requires sep !in p
    ensures tail.None? ==> Split(p, sep) == [p]
    ensures tail.Some? ==> Split(p + [sep] + tail.value, sep) == [p] + Split(tail.value, sep)
  {
    if |p| == 0 {
      if tail.Some? {
        assert p + [sep] + tail.value == [sep] + tail.value;
        assert ([sep] + tail.value)[1..] == tail.value;
      }
    } else {
      SplitPiece(p[1..], sep, tail);
      assert p[0] != sep by { assert p[0] in p; }
      assert [p[0]] + p[1..] == p;
      if tail.Some? {
        var w := p + [sep] + tail.value;
        assert w[0] == p[0];
        assert w[1..] == p[1..] + [sep] + tail.value;
        var rest := Split(w[1..], sep);
        assert rest == [p[1..]] + Split(tail.value, sep);
        assert Split(w, sep) == [[p[0]] + rest[0]] + rest[1..];
        assert rest[1..] == Split(tail.value, sep);
      } else {
        var rest := Split(p[1..], sep);
        assert rest == [p[1..]];
        assert Split(p, sep) == [[p[0]] + rest[0]] + rest[1..];
      }
    }
  }

  /** The id `k` is written as a digit piece of the list. */
  predicate Listed(pieces: seq<string>, k: nat) {
    exists i :: 0 <= i < |pieces| && IsDigits(pieces[i]) && DigitsValue(pieces[i]) == k
  }

  /** The ids named by the digit pieces of a comma-separated list; the other
      pieces are dropped. */
  function DigitIds(pieces: seq<string>): (r: set<nat>)
    ensures r == {} <==> forall i :: 0 <= i < |pieces| ==> !IsDigits(pieces[i])
    ensures forall k :: k in r <==> Listed(pieces, k)
  {
    var r := set p | p in pieces && IsDigits(p) :: DigitsValue(p);
    assert forall k :: k in r <==> Listed(pieces, k) by {
      forall k
        ensures k in r <==> Listed(pieces, k)
      {
        if k in r {
          var p :| p in pieces && IsDigits(p) && DigitsValue(p) == k;
          var i :| 0 <= i < |pieces| && pieces[i] == p;
          assert IsDigits(pieces[i]) && DigitsValue(pieces[i]) == k;
        }
        if Listed(pieces, k) {
          var i :| 0 <= i < |pieces| && IsDigits(pieces[i]) && DigitsValue(pieces[i]) == k;
          assert pieces[i] in pieces;
        }
      }
    }
    assert r != {} ==> exists i :: 0 <= i < |pieces| && IsDigits(pieces[i]) by {
      if r != {} {
        var k :| k in r;
        assert Listed(pieces, k);
      }
    }
    assert forall i :: 0 <= i < |pieces| && IsDigits(pieces[i]) ==> DigitsValue(pieces[i]) in r by {
      forall i | 0 <= i < |pieces| && IsDigits(pieces[i])
        ensures DigitsValue(pieces[i]) in r
      {
        assert Listed(pieces, DigitsValue(pieces[i]));
      }
    }
    r
  }

  /** The one element of a singleton set, as `.get()` returns the one row
      a lookup found. */
  function TheOnly(xs: set<nat>): (m: nat)
    requires |xs| == 1
    ensures xs == {m}
  {
    var m :| m in xs;
    assert |xs - {m}| == 0;
    m
  }

  /** Every entry of `a` is also in `b`, unchanged. */
  predicate SubMap<K, V(==)>(a: map<K, V>, b: map<K, V>) {
    forall k :: k in a ==> k in b && b[k] == a[k]
  }

  /** The rows of `m` whose ids are not in `gone`, as a delete leaves them. */
  function Without<V(==)>(m: map<nat, V>, gone: set<nat>): (r: map<nat, V>)
    ensures SubMap(r, m)
    ensures forall k :: k in r <==> k in m && k !in gone
    ensures r.Keys == m.Keys - gone
  {
    map k | k in m && k !in gone :: m[k]
  }
}
