/**
 * The dictionary keys of the board in src/Game.ts: the tile centred at (x, y)
 * is filed under the string `x + ',' + y`, the coordinates written the way
 * JavaScript writes an integer-valued number.
 */
module Keys {
  import opened Geometry
  import Seqs

  function DigitChar(d: nat): char
    requires d < 10
  {
    (48 + d) as char
  }

  predicate IsDigit(c: char)
  {
    48 <= c as int < 58
  }

  /** The decimal digits of `n`, without leading zeros. */
  function NatToString(n: nat): (s: string)
    ensures |s| > 0 && forall i :: 0 <= i < |s| ==> IsDigit(s[i])
  {
    if n < 10 then [DigitChar(n)] else NatToString(n / 10) + [DigitChar(n % 10)]
  }

  /** `String(n)` for an integer `n`: a minus sign for negatives, then the digits. */
  function IntToString(n: int): string
  {
    if n < 0 then "-" + NatToString(-n) else NatToString(n)
  }

  /** `x + ',' + y`, the key of the tile at `v`. */
  function Key(v: Vec2): string
  {
    IntToString(v.x) + "," + IntToString(v.y)
  }

  /** `Key` applied to each center in turn. */
  function KeysOf(cs: seq<Vec2>): (ks: seq<string>)
    ensures |ks| == |cs|
    ensures forall i :: 0 <= i < |cs| ==> ks[i] == Key(cs[i])
  {
    if cs == [] then [] else [Key(cs[0])] + KeysOf(cs[1..])
  }

  function DigitValue(c: char): nat
    requires IsDigit(c)
  {
    c as int - 48
  }

  /** The value of a string of decimal digits. */
  function ParseNat(s: string): nat
    requires forall i :: 0 <= i < |s| ==> IsDigit(s[i])
  {
    if s == [] then 0 else 10 * ParseNat(s[..|s| - 1]) + DigitValue(s[|s| - 1])
  }

  /** The value of an optional minus sign followed by decimal digits. */
  function ParseInt(s: string): int
    requires |s| > 0
    requires forall i :: 1 <= i < |s| ==> IsDigit(s[i])
    requires s[0] == '-' || IsDigit(s[0])
  {
    if s[0] == '-' then -(ParseNat(s[1..]) as int) else ParseNat(s)
  }

  /** Reading the digits back gives the number. */
  lemma {:induction false} ParseNatRoundTrip(n: nat)
    ensures ParseNat(NatToString(n)) == n
  {
    if n >= 10 {
      ParseNatRoundTrip(n / 10);
      var s := NatToString(n);
      assert s[..|s| - 1] == NatToString(n / 10);
    }
  }

  /** Reading an integer's string back gives the integer; it has no comma. */
  lemma ParseIntRoundTrip(n: int)
    ensures |IntToString(n)| > 0
    ensures forall i :: 1 <= i < |IntToString(n)| ==> IsDigit(IntToString(n)[i])
    ensures IntToString(n)[0] == '-' || IsDigit(IntToString(n)[0])
    ensures ParseInt(IntToString(n)) == n
    ensures ',' !in IntToString(n)
  {
    if n < 0 {
      ParseNatRoundTrip(-n);
      assert IntToString(n)[1..] == NatToString(-n);
    } else {
      ParseNatRoundTrip(n);
    }
  }

  /** Different cells have different keys, so the dictionary holds one tile per cell. */
  lemma KeyInjective(a: Vec2, b: Vec2)
    ensures Key(a) == Key(b) <==> a == b
  {
    if Key(a) == Key(b) {
      var sa, sb := IntToString(a.x), IntToString(b.x);
      ParseIntRoundTrip(a.x);
      ParseIntRoundTrip(b.x);
      ParseIntRoundTrip(a.y);
      ParseIntRoundTrip(b.y);
      // The first comma ends the x part of both keys, so the parts line up.
      assert Key(a)[|sa|] == ',' && Key(b)[|sb|] == ',';
      if |sa| == |sb| {
        assert sa == Key(a)[..|sa|] == Key(b)[..|sb|] == sb;
        assert IntToString(a.y) == Key(a)[|sa| + 1..] == Key(b)[|sb| + 1..] == IntToString(b.y);
      }
    }
  }

  /** Keys of a list of cells repeat only if the cells do. */
  lemma KeysOfDistinct(cs: seq<Vec2>)
    ensures (forall i, j :: 0 <= i < j < |cs| ==> cs[i] != cs[j]) ==>
              forall i, j :: 0 <= i < j < |cs| ==> KeysOf(cs)[i] != KeysOf(cs)[j]
  {
    forall i, j | 0 <= i < j < |cs|
      ensures cs[i] != cs[j] ==> KeysOf(cs)[i] != KeysOf(cs)[j]
    {
      KeyInjective(cs[i], cs[j]);
    }
  }

  /** A cell's key is among the keys of a list of cells exactly when the cell is in the list. */
  lemma KeysOfMember(cs: seq<Vec2>, c: Vec2)
    ensures Key(c) in KeysOf(cs) <==> c in cs
  {
    if Key(c) in KeysOf(cs) {
      var i :| 0 <= i < |cs| && KeysOf(cs)[i] == Key(c);
      KeyInjective(cs[i], c);
    }
  }

  lemma KeysOfAppend(cs: seq<Vec2>, ds: seq<Vec2>)
    ensures KeysOf(cs + ds) == KeysOf(cs) + KeysOf(ds)
  {
  }

  /**
   * `[...new Set(keys)]` over the keys of a list of cells is the key list of
   * the cells with repeats dropped: deduplicating keys deduplicates cells.
   */
  lemma {:induction false} SetSpreadKeys(cs: seq<Vec2>)
    ensures Seqs.SetSpread(KeysOf(cs)) == KeysOf(Seqs.SetSpread(cs))
  {
    if cs != [] {
      var init, c := cs[..|cs| - 1], cs[|cs| - 1];
      assert cs == init + [c];
      KeysOfAppend(init, [c]);
      assert KeysOf(cs)[..|cs| - 1] == KeysOf(init);
      SetSpreadKeys(init);
      KeysOfMember(Seqs.SetSpread(init), c);
      KeysOfAppend(Seqs.SetSpread(init), [c]);
    }
  }

  /** The same for the `indexOf` filter: dropping repeated keys drops exactly the repeated cells. */
  lemma FirstOccurrencesKeys(cs: seq<Vec2>)
    ensures Seqs.FirstOccurrences(KeysOf(cs)) == KeysOf(Seqs.FirstOccurrences(cs))
  {
    Seqs.FirstOccurrencesIsSetSpread(KeysOf(cs));
    Seqs.FirstOccurrencesIsSetSpread(cs);
    SetSpreadKeys(cs);
  }
}
