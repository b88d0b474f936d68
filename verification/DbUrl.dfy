/** `KVDBUrl.db_id` and `with_db_id`: the database number in the path of a URL. */
module DbUrl {
  import opened Common
  import opened Text

  /** A URL; everything but the path is carried along. */
  datatype Url = Url(path: Option<string>, others: seq<Option<string>>)

  predicate IsDigit(c: char) {
    '0' <= c <= '9'
  }

  predicate AllDigits(s: string) {
    forall i :: 0 <= i < |s| ==> IsDigit(s[i])
  }

  function DigitOf(c: char): nat
    requires IsDigit(c)
  {
    c as nat - '0' as nat
  }

  function CharOf(d: nat): (c: char)
    requires d < 10
    ensures IsDigit(c) && DigitOf(c) == d
  {
    ('0' as nat + d) as char
  }

  /** `int(s)` of a run of digits. */
  function Parse(s: string): nat
    requires AllDigits(s)
  {
    if s == "" then 0 else Parse(s[..|s| - 1]) * 10 + DigitOf(s[|s| - 1])
  }

  /** `str(n)` */
  function Print(n: nat): (s: string)
    ensures AllDigits(s) && s != ""
  {
    if n < 10 then [CharOf(n)] else Print(n / 10) + [CharOf(n % 10)]
  }

  /** `db_id`: 0 without a path; a path that is not a slash and digits makes `int` raise. */
  function DbId(url: Url): Option<nat> {
    match url.path
    case None => Some(0)
    case Some(path) =>
      if |path| >= 2 && AllDigits(path[1..]) then Some(Parse(path[1..])) else None
  }

  /** `with_db_id`; `build` puts the slash back in front of the new path. */
  function WithDbId(url: Url, d: nat): Option<Url> {
    match DbId(url)
    case None => if url.path == Some("") then Some(url.(path := Some("/" + Print(d)))) else None
    case Some(now) =>
      var path := if url.path.Some? && url.path.value != "" && now != 0
        then StripLeft(Replace(url.path.value, Print(now), Print(d)), '/')
        else Print(d);
      Some(url.(path := Some("/" + path)))
  }

  /** Printing and parsing are inverse. */
  lemma {:induction false} ParsePrint(n: nat)
    ensures Parse(Print(n)) == n
  {
    if n >= 10 {
      ParsePrint(n / 10);
      assert Print(n)[..|Print(n)| - 1] == Print(n / 10);
    }
  }

  /** A positive number is printed without a leading zero. */
  lemma {:induction false} NoLeadingZero(n: nat)
    requires n > 0
    ensures Print(n)[0] != '0'
  {
    if n >= 10 {
      NoLeadingZero(n / 10);
    }
  }

  function Zeros(z: nat): (s: string)
    ensures |s| == z && forall i :: 0 <= i < z ==> s[i] == '0'
  {
    seq(z, i => '0')
  }

  lemma {:induction false} ParseZeros(z: nat, s: string)
    requires AllDigits(s)
    ensures AllDigits(Zeros(z) + s) && Parse(Zeros(z) + s) == Parse(s)
  {
    var t := Zeros(z) + s;
    if s != "" {
      assert t[..|t| - 1] == Zeros(z) + s[..|s| - 1];
      ParseZeros(z, s[..|s| - 1]);
    } else if z > 0 {
      assert t[..|t| - 1] == Zeros(z - 1) + "";
      ParseZeros(z - 1, "");
    }
  }

  /** Digits are leading zeros and then the number they mean. */
  lemma {:induction false} SplitZeros(s: string) returns (z: nat)
    requires AllDigits(s) && Parse(s) > 0
    ensures s == Zeros(z) + Print(Parse(s))
  {
    var front, last := s[..|s| - 1], DigitOf(s[|s| - 1]);
    assert s == front + [CharOf(last)];
    if Parse(front) == 0 {
      z := |front|;
      OnlyZeros(front);
    } else {
      z := SplitZeros(front);
      assert Print(Parse(s)) == Print(Parse(front)) + [CharOf(last)];
    }
  }

  lemma {:induction false} OnlyZeros(s: string)
    requires AllDigits(s) && Parse(s) == 0
    ensures s == Zeros(|s|)
  {
    if s != "" {
      assert Parse(s[..|s| - 1]) == 0 && DigitOf(s[|s| - 1]) == 0;
      OnlyZeros(s[..|s| - 1]);
      assert s[|s| - 1] == '0';
      assert s == s[..|s| - 1] + [s[|s| - 1]];
    }
  }

  /** Scanning passes over the leading zeros, so only the number itself is replaced. */
  lemma {:induction false} ReplaceBehindZeros(z: nat, n: nat, rep: string)
    requires n > 0
    ensures Replace(Zeros(z) + Print(n), Print(n), rep) == Zeros(z) + rep
  {
    NoLeadingZero(n);
    if z == 0 {
      assert Zeros(0) + Print(n) == Print(n) + "";
      ReplacePrefix(Print(n), "", rep);
    } else {
      assert Zeros(z) + Print(n) == ['0'] + (Zeros(z - 1) + Print(n));
      ReplaceSkip('0', Zeros(z - 1) + Print(n), Print(n), rep);
      ReplaceBehindZeros(z - 1, n, rep);
      assert ['0'] + Zeros(z - 1) == Zeros(z);
    }
  }

  /** For every URL whose path is absent or a slash and digits, the number written is the number read. */
  lemma WithDbIdRoundTrip(url: Url, d: nat)
    requires url.path.None? || (|url.path.value| >= 2 && url.path.value[0] == '/' && AllDigits(url.path.value[1..]))
    ensures WithDbId(url, d).Some?
    ensures DbId(WithDbId(url, d).value) == Some(d)
    ensures WithDbId(url, d).value.others == url.others
    ensures var path := WithDbId(url, d).value.path;
      path.Some? && |path.value| >= 2 && path.value[0] == '/' && AllDigits(path.value[1..])
  {
    ParsePrint(d);
    assert ("/" + Print(d))[1..] == Print(d);
    if url.path.Some? {
      var path := url.path.value;
      var digits := path[1..];
      var now := Parse(digits);
      if now != 0 {
        var z := SplitZeros(digits);
        NoLeadingZero(now);
        assert path == ['/'] + digits;
        ReplaceSkip('/', digits, Print(now), Print(d));
        ReplaceBehindZeros(z, now, Print(d));
        var kept := Zeros(z) + Print(d);
        assert (['/'] + kept)[1..] == kept && kept[0] != '/';
        assert StripLeft(['/'] + kept, '/') == kept;
        ParseZeros(z, Print(d));
        assert ("/" + kept)[1..] == kept;
      }
    }
  }

  /** Rewriting twice is rewriting once: the last number wins. */
  lemma LastRewriteWins(url: Url, d: nat, e: nat)
    requires url.path.None? || (|url.path.value| >= 2 && url.path.value[0] == '/' && AllDigits(url.path.value[1..]))
    ensures WithDbId(url, d).Some? && WithDbId(WithDbId(url, d).value, e).Some?
    ensures DbId(WithDbId(WithDbId(url, d).value, e).value) == Some(e)
  {
    WithDbIdRoundTrip(url, d);
    WithDbIdRoundTrip(WithDbId(url, d).value, e);
  }

  /** The new path to the letter: leading zeros stay in front of the new number. */
  lemma ZerosStay(url: Url, z: nat, now: nat, d: nat)
    requires now > 0 && url.path == Some(['/'] + (Zeros(z) + Print(now)))
    ensures WithDbId(url, d) == Some(url.(path := Some("/" + (Zeros(z) + Print(d)))))
  {
    var digits, kept := Zeros(z) + Print(now), Zeros(z) + Print(d);
    assert (['/'] + digits)[1..] == digits;
    ParsePrint(now);
    ParseZeros(z, Print(now));
    NoLeadingZero(now);
    ReplaceSkip('/', digits, Print(now), Print(d));
    ReplaceBehindZeros(z, now, Print(d));
    StripSlash(kept);
  }

  lemma StripSlash(digits: string)
    requires digits != "" && AllDigits(digits)
    ensures StripLeft(['/'] + digits, '/') == digits
  {
    assert (['/'] + digits)[1..] == digits && digits[0] != '/';
  }

  /** The number 0 is replaced with all its zeros, and a missing path is put in. */
  lemma ZeroGoes(url: Url, z: nat, d: nat)
    requires url.path == None || (z > 0 && url.path == Some(['/'] + Zeros(z)))
    ensures WithDbId(url, d) == Some(url.(path := Some("/" + Print(d))))
  {
    ParseZeros(z, "");
    assert (['/'] + Zeros(z))[1..] == Zeros(z) && Zeros(z) + "" == Zeros(z);
  }

  /** Other paths: an empty one gets the number, and any that is not a slash and digits makes `int` raise. */
  lemma OtherPaths(url: Url, path: string, d: nat)
    requires url.path == Some(path) && (|path| < 2 || !AllDigits(path[1..]))
    ensures DbId(url) == None
    ensures WithDbId(url, d) == if path == "" then Some(url.(path := Some("/" + Print(d)))) else None
  {
  }
}
