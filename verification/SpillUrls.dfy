/** The keys of spilled objects: a file name with the offset and size of one object in
    its query (the query component of section 3.4 of RFC 3986). */
module SpillUrls {

  datatype Error = MissingObject | Overflow | BadUrl | NoFile | SizeMismatch
  datatype Result<+T> = Ok(value: T) | Err(error: Error)

  datatype ParsedUrl = ParsedUrl(baseUrl: string, offset: nat, size: nat)

  // ---------------------------------------------------------------- decimal numbers

  predicate IsDigit(c: char) { '0' <= c <= '9' }

  function DigitOf(d: nat): (c: char)
    requires d < 10
    ensures IsDigit(c) && ValueOf(c) == d
  {
    '0' + (d as char)
  }

  function ValueOf(c: char): nat
    requires IsDigit(c)
  {
    c as nat - '0' as nat
  }

  function Decimal(n: nat): (s: string)
    ensures s != [] && forall i :: 0 <= i < |s| ==> IsDigit(s[i])
  {
    if n < 10 then [DigitOf(n)] else Decimal(n / 10) + [DigitOf(n % 10)]
  }

  function ParseDecimal(s: string): Result<nat> {
    if s == [] || exists i :: 0 <= i < |s| && !IsDigit(s[i]) then Err(BadUrl) else Ok(Number(s))
  }

  function Number(s: string): nat
    requires forall i :: 0 <= i < |s| ==> IsDigit(s[i])
  {
    if s == [] then 0 else 10 * Number(s[..|s| - 1]) + ValueOf(s[|s| - 1])
  }

  lemma {:induction false} DecimalRoundTrip(n: nat)
    ensures ParseDecimal(Decimal(n)) == Ok(n)
  {
    NumberOfDecimal(n);
  }

  lemma {:induction false} NumberOfDecimal(n: nat)
    ensures Number(Decimal(n)) == n
  {
    if n < 10 {
      assert Decimal(n)[..0] == [];
    } else {
      NumberOfDecimal(n / 10);
      assert Decimal(n)[..|Decimal(n)| - 1] == Decimal(n / 10);
    }
  }

  // ------------------------------------------------------------------- splitting

  /** The position of the first c, the length if there is none. */
  function IndexOf(s: string, c: char): (i: nat)
    ensures i <= |s|
    ensures i < |s| ==> s[i] == c
    ensures forall j :: 0 <= j < i ==> s[j] != c
  {
    if s == [] || s[0] == c then 0 else 1 + IndexOf(s[1..], c)
  }

  function Before(s: string, c: char): string { s[..IndexOf(s, c)] }

  function After(s: string, c: char): string {
    if IndexOf(s, c) < |s| then s[IndexOf(s, c) + 1..] else []
  }

  function Split(s: string, c: char): seq<string>
    decreases |s|
  {
    if IndexOf(s, c) == |s| then [s] else [Before(s, c)] + Split(After(s, c), c)
  }

  /** The value of the first field with the given name and a value that is not empty. */
  function Field(fields: seq<string>, name: string): Result<string> {
    if fields == [] then Err(BadUrl)
    else
      var f := fields[0];
      if '=' in f && Before(f, '=') == name && After(f, '=') != [] then Ok(After(f, '=')) else Field(fields[1..], name)
  }

  // ------------------------------------------------------------------------ keys

  function CreateUrl(url: string, offset: nat, size: nat): string {
    url + "?offset=" + Decimal(offset) + "&size=" + Decimal(size)
  }

  /** The fragment is cut off first, then the query; the base is what precedes the first
      question mark of the whole key. */
  function ParseUrl(key: string): Result<ParsedUrl> {
    var fields := Split(After(Before(key, '#'), '?'), '&');
    var offset, size := Field(fields, "offset"), Field(fields, "size");
    if offset.Err? || size.Err? then Err(BadUrl)
    else
      var o, s := ParseDecimal(offset.value), ParseDecimal(size.value);
      if o.Err? || s.Err? then Err(BadUrl) else Ok(ParsedUrl(Before(key, '?'), o.value, s.value))
  }

  lemma IndexIs(s: string, c: char, i: nat)
    requires i <= |s| && (i < |s| ==> s[i] == c) && forall j :: 0 <= j < i ==> s[j] != c
    ensures IndexOf(s, c) == i
  {
  }

  lemma SplitTwo(first: string, second: string, c: char)
    requires c !in first && c !in second
    ensures Split(first + [c] + second, c) == [first, second]
  {
    var whole := first + [c] + second;
    IndexIs(whole, c, |first|);
    assert whole[..|first|] == first && whole[|first| + 1..] == second;
    IndexIs(second, c, |second|);
  }

  lemma FieldsOfTwo(first: string, second: string, a: string, b: string, x: string, y: string)
    requires '=' in first && Before(first, '=') == a && After(first, '=') == x && x != []
    requires '=' in second && Before(second, '=') == b && After(second, '=') == y && y != []
    requires a != b
    ensures Field([first, second], a) == Ok(x) && Field([first, second], b) == Ok(y)
  {
    assert [first, second][1..] == [second];
  }

  /** The query of a key splits into its two fields. */
  lemma QueryFields(offset: nat, size: nat)
    ensures var fields := Split("offset=" + Decimal(offset) + "&size=" + Decimal(size), '&');
      Field(fields, "offset") == Ok(Decimal(offset)) && Field(fields, "size") == Ok(Decimal(size))
  {
    var x, y := Decimal(offset), Decimal(size);
    hide Decimal, Split, Field, Before, After;
    var first, second := "offset" + "=" + x, "size" + "=" + y;
    assert "offset=" + x + "&size=" + y == first + ['&'] + second;
    SplitTwo(first, second, '&');
    FieldIs("offset", x);
    FieldIs("size", y);
    FieldsOfTwo(first, second, "offset", "size", x, y);
  }

  lemma FieldIs(name: string, value: string)
    requires '=' !in name && value != []
    ensures var f := name + "=" + value; '=' in f && Before(f, '=') == name && After(f, '=') == value
  {
    var f := name + "=" + value;
    assert f[|name|] == '=';
    IndexIs(f, '=', |name|);
    assert f[..|name|] == name && f[|name| + 1..] == value;
  }

  /** A key made from a file name is read back as it was made exactly when the name holds
      neither a question mark nor a number sign. */
  lemma UrlRoundTrip(url: string, offset: nat, size: nat)
    ensures ParseUrl(CreateUrl(url, offset, size)) == Ok(ParsedUrl(url, offset, size))
      <==> '?' !in url && '#' !in url
  {
    var key := CreateUrl(url, offset, size);
    var query := "offset=" + Decimal(offset) + "&size=" + Decimal(size);
    assert key == url + ['?'] + query;
    if '?' in url {
      assert '?' !in Before(key, '?');
    } else {
      IndexIs(key, '?', |url|);
      assert Before(key, '?') == url;
      if '#' in url {
        FragmentHidesQuery(url, query);
      } else {
        assert forall j :: 0 <= j < |key| ==> key[j] != '#';
        IndexIs(key, '#', |key|);
        assert Before(key, '#') == key && After(key, '?') == query;
        QueryFields(offset, size);
        DecimalRoundTrip(offset);
        DecimalRoundTrip(size);
      }
    }
  }

  /** A key without a query is not parsed. */
  lemma NoQuery(key: string)
    ensures '?' !in key ==> ParseUrl(key) == Err(BadUrl)
  {
    if '?' !in key {
      var rest := Before(key, '#');
      IndexIs(rest, '?', |rest|);
      assert After(rest, '?') == [];
      NoFields();
    }
  }

  lemma NoFields()
    ensures Field(Split([], '&'), "offset") == Err(BadUrl)
  {
    assert Split([], '&') == [[]];
    assert Field([[]], "offset") == Field([], "offset");
  }

  /** The query of a key names the offset and the size in decimal digits. */
  lemma KeyNamesOffsetAndSize(url: string, offset: nat, size: nat)
    ensures |url| < |CreateUrl(url, offset, size)| && CreateUrl(url, offset, size)[..|url|] == url && CreateUrl(url, offset, size)[|url|] == '?'
    ensures var fields := Split(CreateUrl(url, offset, size)[|url| + 1..], '&');
      Field(fields, "offset") == Ok(Decimal(offset)) && Field(fields, "size") == Ok(Decimal(size))
  {
    hide Decimal, Split, Field;
    var key := CreateUrl(url, offset, size);
    var query := "offset=" + Decimal(offset) + "&size=" + Decimal(size);
    assert key == url + ['?'] + query;
    assert key[|url| + 1..] == query;
    QueryFields(offset, size);
  }

  /** The decimal digit of n with weight ten to the power of i. */
  function Digit(n: nat, i: nat): (d: nat)
    ensures d < 10
  {
    if i == 0 then n % 10 else Digit(n / 10, i - 1)
  }

  /** Numbers are written with the most significant digit first, and without leading zeros. */
  lemma {:induction false} DecimalDigits(n: nat, i: nat)
    requires i < |Decimal(n)|
    ensures Decimal(n)[|Decimal(n)| - 1 - i] == '0' + Digit(n, i) as char
    ensures 10 <= n ==> Decimal(n)[0] != '0'
  {
    if i > 0 {
      DecimalDigits(n / 10, i - 1);
    }
    if n >= 10 {
      LeadingDigit(n);
    }
  }

  lemma {:induction false} LeadingDigit(n: nat)
    requires 0 < n
    ensures Decimal(n)[0] != '0'
  {
    if n >= 10 {
      LeadingDigit(n / 10);
    }
  }

  /** A number sign in the name turns the query into a part of the fragment. */
  lemma FragmentHidesQuery(url: string, query: string)
    requires '#' in url && '?' !in url
    ensures ParseUrl(url + ['?'] + query) == Err(BadUrl)
  {
    var key := url + ['?'] + query;
    var i := IndexOf(key, '#');
    var h :| 0 <= h < |url| && url[h] == '#';
    assert key[h] == '#' && i <= h;
    var rest := Before(key, '#');
    assert forall j :: 0 <= j < |rest| ==> rest[j] == url[j];
    IndexIs(rest, '?', |rest|);
    assert After(rest, '?') == [];
    NoFields();
  }
}
