/** The names a Zarr store's files go by. */
module StoreKeys {

  /** The two parts of a key encoding: whether `c` goes in front, and the separator. */
  datatype KeyEncoding = KeyEncoding(prefix: bool, separator: char)

  predicate IsDigit(c: char) {
    '0' <= c <= '9'
  }

  function Decimal(n: nat): (text: string)
    ensures text != [] && forall i :: 0 <= i < |text| ==> IsDigit(text[i])
  {
    var last := ['0' + (n % 10) as char];
    if n < 10 then last else Decimal(n / 10) + last
  }

  /** Two numbers are never written the same way. */
  lemma {:induction false} DecimalInjective(a: nat, b: nat)
    requires Decimal(a) == Decimal(b)
    ensures a == b
    decreases a
  {
    var s, t := Decimal(a), Decimal(b);
    assert s[|s| - 1] == t[|t| - 1];
    DigitInjective(a % 10, b % 10);
    MoreDigits(a);
    MoreDigits(b);
    if a >= 10 {
      assert Decimal(a / 10) == s[..|s| - 1] == t[..|t| - 1] == Decimal(b / 10);
      DecimalInjective(a / 10, b / 10);
    }
  }

  lemma MoreDigits(n: nat)
    ensures n >= 10 <==> |Decimal(n)| > 1
  {
  }

  lemma DigitInjective(a: nat, b: nat)
    requires a < 10 && b < 10 && '0' + a as char == '0' + b as char
    ensures a == b
  {
  }

  /** The coordinates, each behind a separator. */
  function Separated(coords: seq<nat>, separator: char): string {
    if coords == [] then []
    else Separated(coords[..|coords| - 1], separator) + [separator] + Decimal(coords[|coords| - 1])
  }

  function Lead(path: string): string {
    if path == [] then [] else path + "/"
  }

  /** The key of the chunk at `coords`, with a name of its own for the chunk of a scalar. */
  function Key(path: string, key: KeyEncoding, coords: seq<nat>): string {
    Lead(path) +
    if key.prefix then "c" + Separated(coords, key.separator)
    else if coords == [] then "0"
    else Separated(coords, key.separator)[1..]
  }

  lemma SeparatedNext(coords: seq<nat>, i: nat, separator: char)
    requires i < |coords|
    ensures Separated(coords[..i + 1], separator)
         == Separated(coords[..i], separator) + ([separator] + Decimal(coords[i]))
    ensures i > 0 ==> Separated(coords[..i], separator) != []
  {
    assert coords[..i + 1][..i] == coords[..i];
  }

  lemma Assoc(a: string, b: string, c: string)
    ensures a + b + c == a + (b + c)
  {
  }

  lemma RestNext(a: string, b: string)
    requires a != []
    ensures (a + b)[1..] == a[1..] + b
  {
  }

  lemma KeyParts(path: string, key: KeyEncoding, coords: seq<nat>)
    ensures key.prefix ==> Key(path, key, coords) == Lead(path) + "c" + Separated(coords[..|coords|], key.separator)
    ensures !key.prefix && coords != [] ==>
      Separated(coords[..|coords|], key.separator) != []
      && Key(path, key, coords) == Lead(path) + Separated(coords[..|coords|], key.separator)[1..]
  {
    assert coords[..|coords|] == coords;
  }

  method KeyOf(path: string, key: KeyEncoding, coords: seq<nat>) returns (name: string)
    ensures name == Key(path, key, coords)
  {
    hide Separated, Decimal;
    name := [];
    if path != [] {
      name := name + path;
      name := name + ['/'];
    }
    KeyParts(path, key, coords);
    if key.prefix {
      name := name + ['c'];
      Prefixed(name, coords, key.separator);
      for i := 0 to |coords|
        invariant name == Lead(path) + "c" + Separated(coords[..i], key.separator)
      {
        SeparatedNext(coords, i, key.separator);
        Assoc(name, [key.separator], Decimal(coords[i]));
        Assoc(Lead(path) + "c", Separated(coords[..i], key.separator), [key.separator] + Decimal(coords[i]));
        name := name + [key.separator];
        name := name + Decimal(coords[i]);
      }
    } else if coords == [] {
      name := name + ['0'];
    } else {
      for i := 0 to |coords|
        invariant i == 0 ==> name == Lead(path)
        invariant i > 0 ==> Separated(coords[..i], key.separator) != []
        invariant i > 0 ==> name == Lead(path) + Separated(coords[..i], key.separator)[1..]
      {
        SeparatedNext(coords, i, key.separator);
        if i > 0 {
          var part := Separated(coords[..i], key.separator);
          RestNext(part, [key.separator] + Decimal(coords[i]));
          Assoc(name, [key.separator], Decimal(coords[i]));
          Assoc(Lead(path), part[1..], [key.separator] + Decimal(coords[i]));
          name := name + [key.separator];
        } else {
          FirstPart(coords, key.separator);
        }
        name := name + Decimal(coords[i]);
      }
    }
  }

  lemma Prefixed(name: string, coords: seq<nat>, separator: char)
    ensures name + Separated(coords[..0], separator) == name
  {
  }

  lemma FirstPart(coords: seq<nat>, separator: char)
    requires coords != []
    ensures Separated(coords[..1], separator) != []
    ensures Separated(coords[..1], separator)[1..] == Decimal(coords[0])
  {
    assert coords[..1][..0] == [] && Separated([], separator) == [];
    assert Separated(coords[..1], separator) == [separator] + Decimal(coords[0]);
  }

  lemma {:induction false} SeparatedInjective(a: seq<nat>, b: seq<nat>, separator: char)
    requires |a| == |b| && !IsDigit(separator) && Separated(a, separator) == Separated(b, separator)
    ensures a == b
    decreases |a|
  {
    if a != [] {
      var s, t := Separated(a[..|a| - 1], separator), Separated(b[..|b| - 1], separator);
      var x, y := Decimal(a[|a| - 1]), Decimal(b[|b| - 1]);
      LastPartSame(s, x, t, y, separator);
      DecimalInjective(a[|a| - 1], b[|b| - 1]);
      SeparatedInjective(a[..|a| - 1], b[..|b| - 1], separator);
    }
  }

  lemma LastPartSame(s: string, x: string, t: string, y: string, separator: char)
    requires s + [separator] + x == t + [separator] + y
    requires separator !in x && separator !in y
    ensures s == t && x == y
  {
    if |x| < |y| {
      SeparatorInside(s, x, t, y, separator);
    } else if |y| < |x| {
      SeparatorInside(t, y, s, x, separator);
    } else {
      var whole := s + [separator] + x;
      assert s == whole[..|s|] == t && x == whole[|s| + 1..] == y;
    }
  }

  lemma SeparatorInside(s: string, x: string, t: string, y: string, separator: char)
    requires s + [separator] + x == t + [separator] + y && |x| < |y|
    ensures separator in y
  {
    var whole := s + [separator] + x;
    assert whole[|s|] == separator && whole[|s|] == y[|s| - |t| - 1];
  }

  /** No two chunks of an array share a file. */
  lemma KeyInjective(path: string, key: KeyEncoding, a: seq<nat>, b: seq<nat>)
    requires |a| == |b| && !IsDigit(key.separator)
    requires Key(path, key, a) == Key(path, key, b)
    ensures a == b
  {
    var n := |Lead(path)|;
    assert Key(path, key, a)[n..] == Key(path, key, b)[n..];
    if key.prefix {
      assert Key(path, key, a)[n + 1..] == Separated(a, key.separator);
      assert Key(path, key, b)[n + 1..] == Separated(b, key.separator);
      SeparatedInjective(a, b, key.separator);
    } else if a != [] {
      SeparatorFirst(a, key.separator);
      SeparatorFirst(b, key.separator);
      var s, t := Separated(a, key.separator), Separated(b, key.separator);
      assert s == [key.separator] + s[1..] && t == [key.separator] + t[1..];
      SeparatedInjective(a, b, key.separator);
    }
  }

  lemma {:induction false} SeparatorFirst(coords: seq<nat>, separator: char)
    requires coords != []
    ensures Separated(coords, separator) != [] && Separated(coords, separator)[0] == separator
    decreases |coords|
  {
    if |coords| > 1 {
      SeparatorFirst(coords[..|coords| - 1], separator);
    }
  }
}
