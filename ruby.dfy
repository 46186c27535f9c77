/**
 * The slice of Ruby's core the citation model leans on: the values a parsed
 * citation file or a caller can hand to the model, insertion-ordered hashes
 * with `h[k] = v`, `to_s`, `chomp('=')` and truthiness (`x || y`).
 */
module Ruby {

  datatype Option<T> = None | Some(value: T)
  {
    /** `value` when present, `default` otherwise. */
    function GetOr(default: T): T
    {
      match this
      case Some(v) => v
      case None => default
    }
  }

  /** A calendar date as held by Ruby's `Date` (proleptic Gregorian). */
  datatype CalendarDate = CalendarDate(year: int, month: nat, day: nat)

  /** A Ruby object as it appears in a parsed citation file or a caller's argument. */
  datatype Value =
    | Nil
    | Bool(b: bool)
    | Int(i: int)
    | Str(s: string)
    | Date(date: CalendarDate)
    | List(items: seq<Value>)
    | Dict(hash: Hash)

  /**
   * A Ruby `Hash` with string keys. Ruby hashes remember insertion order, so
   * the keys are kept in `keys`, in that order, and the values in `entries`.
   */
  datatype Hash = Hash(keys: seq<string>, entries: map<string, Value>)
  {
    /** Every key listed once, and the listed keys are exactly the stored ones. */
    ghost predicate Valid()
    {
      && Distinct(keys)
      && (forall k :: k in entries <==> k in keys)
    }

    /** `h[k]` on a hash without a default: the stored value, or nothing. */
    function Lookup(k: string): Option<Value>
    {
      if k in entries then Some(entries[k]) else None
    }

    /**
     * `h[k] = v`: the key now maps to `v`, every other key is untouched, a key
     * already present keeps its place in the order and a new key goes last.
     */
    function Put(k: string, v: Value): (r: Hash)
      ensures Valid() ==> r.Valid()
      ensures r.Lookup(k) == Some(v)
      ensures forall j :: j != k ==> r.Lookup(j) == Lookup(j)
      ensures k in entries ==> r.keys == keys
      ensures k !in entries ==> r.keys == keys + [k]
    {
      DistinctSnoc(keys, k);
      Hash(if k in entries then keys else keys + [k], entries[k := v])
    }
  }

  /** No element occurs twice. */
  ghost predicate Distinct<T>(s: seq<T>)
  {
    s == [] || (s[0] !in s[1..] && Distinct(s[1..]))
  }

  /** Two sequences without repeats and without common elements join into one without repeats. */
  lemma {:induction false} DistinctAppend<T>(a: seq<T>, b: seq<T>)
    requires Distinct(a) && Distinct(b)
    requires forall x :: x in a ==> x !in b
    ensures Distinct(a + b)
  {
    if a == [] {
      assert a + b == b;
    } else {
      assert (a + b)[0] == a[0] && (a + b)[1..] == a[1..] + b;
      assert a[0] in a;
      DistinctAppend(a[1..], b);
    }
  }

  /** Appending an element not yet present keeps a sequence free of repeats. */
  lemma DistinctSnoc<T>(s: seq<T>, x: T)
    ensures Distinct(s) && x !in s ==> Distinct(s + [x])
  {
    if Distinct(s) && x !in s {
      DistinctAppend(s, [x]);
    }
  }

  /** The two halves of a sequence without repeats share no element. */
  lemma {:induction false} DistinctSplit<T>(a: seq<T>, b: seq<T>)
    requires Distinct(a + b)
    ensures Distinct(a) && Distinct(b)
    ensures forall x :: x in a ==> x !in b
  {
    if a == [] {
      assert a + b == b;
    } else {
      assert (a + b)[1..] == a[1..] + b;
      DistinctSplit(a[1..], b);
    }
  }

  /** Two hashes that answer every lookup alike hold the same entries. */
  lemma LookupExtensional(h1: Hash, h2: Hash)
    requires forall k :: h1.Lookup(k) == h2.Lookup(k)
    ensures h1.entries == h2.entries
  {
    forall k | k in h1.entries ensures k in h2.entries && h1.entries[k] == h2.entries[k] {
      assert h1.Lookup(k) == h2.Lookup(k);
    }
    forall k | k in h2.entries ensures k in h1.entries {
      assert h1.Lookup(k) == h2.Lookup(k);
    }
  }

  /** `{}` */
  function EmptyHash(): (r: Hash)
    ensures r.Valid() && r.keys == []
    ensures forall k :: r.Lookup(k) == None
  {
    Hash([], map[])
  }

  /** Ruby's truthiness: only `nil` and `false` are false. */
  predicate Truthy(v: Value)
  {
    !(v.Nil? || v == Bool(false))
  }

  /** True when a method name is a setter's name, that is, ends with `=`. */
  predicate IsSetterName(name: string)
  {
    |name| > 0 && name[|name| - 1] == '='
  }

  /** `s.chomp('=')`: drops one trailing `=`, if there is one. */
  function Chomp(s: string): (r: string)
    ensures IsSetterName(s) ==> r + "=" == s
    ensures !IsSetterName(s) ==> r == s
  {
    if IsSetterName(s) then s[..|s| - 1] else s
  }

  predicate IsDigit(c: char)
  {
    '0' <= c <= '9'
  }

  function DigitChar(d: nat): (c: char)
    requires d < 10
    ensures IsDigit(c)
  {
    "0123456789"[d]
  }

  /** `n.to_s` for a natural number: its decimal digits, most significant first. */
  function NatToDecimal(n: nat): (r: string)
    ensures |r| > 0
    ensures forall i :: 0 <= i < |r| ==> IsDigit(r[i])
    ensures n < 10 <==> |r| == 1
  {
    if n < 10 then [DigitChar(n)] else NatToDecimal(n / 10) + [DigitChar(n % 10)]
  }

  /** `i.to_s` for an integer. */
  function IntToDecimal(i: int): (r: string)
    ensures |r| > 0
    ensures (r[0] == '-') <==> i < 0
  {
    if i < 0 then "-" + NatToDecimal(-i) else NatToDecimal(i)
  }

  function Zeros(n: nat): (r: string)
    ensures |r| == n && forall i :: 0 <= i < n ==> r[i] == '0'
  {
    if n == 0 then "" else "0" + Zeros(n - 1)
  }

  /** `format('%0<width>d', n)` for a natural number. */
  function ZeroPad(n: nat, width: nat): (r: string)
    ensures |r| >= width
    ensures forall i :: 0 <= i < |r| ==> IsDigit(r[i])
  {
    var digits := NatToDecimal(n);
    if |digits| >= width then digits else Zeros(width - |digits|) + digits
  }

  /** `Date#to_s`: ISO 8601 `YYYY-MM-DD`, the year padded to four digits and signed when negative. */
  function IsoDate(d: CalendarDate): (r: string)
    ensures |r| >= 10
  {
    (if d.year < 0 then "-" + ZeroPad(-d.year, 4) else ZeroPad(d.year, 4))
    + "-" + ZeroPad(d.month, 2) + "-" + ZeroPad(d.day, 2)
  }

  /** The Julian day number of a Gregorian date, as `Date#jd` gives it. */
  function JulianDay(d: CalendarDate): int
  {
    var a := (14 - d.month) / 12;
    var y := d.year + 4800 - a;
    var m := d.month + 12 * a - 3;
    d.day + (153 * m + 2) / 5 + 365 * y + y / 4 - y / 100 + y / 400 - 32045
  }

  /** The body of `String#inspect` for the characters a citation file usually holds. */
  function Escape(s: string): string
  {
    if s == [] then ""
    else
      (match s[0]
       case '"' => "\\\""
       case '\\' => "\\\\"
       case '\n' => "\\n"
       case '\t' => "\\t"
       case '\r' => "\\r"
       case c => [c])
      + Escape(s[1..])
  }

  /** `v.inspect` (the notation of Ruby releases before 3.4 for hashes). */
  function Inspect(v: Value): string
  {
    match v
    case Nil => "nil"
    case Bool(b) => if b then "true" else "false"
    case Int(i) => IntToDecimal(i)
    case Str(s) => "\"" + Escape(s) + "\""
    case Date(d) =>
      "#<Date: " + IsoDate(d) + " ((" + IntToDecimal(JulianDay(d)) + "j,0s,0n),+0s,2299161j)>"
    case List(items) => "[" + InspectItems(items) + "]"
    case Dict(h) => "{" + InspectPairs(h, h.keys) + "}"
  }

  function InspectItems(vs: seq<Value>): string
  {
    if vs == [] then ""
    else Inspect(vs[0]) + (if |vs| == 1 then "" else ", " + InspectItems(vs[1..]))
  }

  function InspectPairs(h: Hash, ks: seq<string>): string
    decreases h, |ks|
  {
    if ks == [] then ""
    else
      var first := "\"" + Escape(ks[0]) + "\"=>" + (if ks[0] in h.entries then Inspect(h.entries[ks[0]]) else "nil");
      first + (if |ks| == 1 then "" else ", " + InspectPairs(h, ks[1..]))
  }

  /** `v.to_s`. */
  function ToS(v: Value): (r: string)
    ensures v.Str? ==> r == v.s
    ensures v.Nil? ==> r == ""
    ensures v.Date? ==> r == IsoDate(v.date)
  {
    match v
    case Nil => ""
    case Bool(b) => if b then "true" else "false"
    case Int(i) => IntToDecimal(i)
    case Str(s) => s
    case Date(d) => IsoDate(d)
    case List(_) => Inspect(v)
    case Dict(_) => Inspect(v)
  }
}
