/**
 * String helpers: `Array.prototype.join` and `String.prototype.split` on a
 * single character, and the decimal text JavaScript gives a natural number
 * inside a template literal.
 */
module Text {

  /** `ws.join(sep)`: the pieces with `sep` between neighbours. */
  function Join(ws: seq<string>, sep: string): string
  {
    if |ws| == 0 then ""
    else if |ws| == 1 then ws[0]
    else ws[0] + sep + Join(ws[1..], sep)
  }

  /** Joining a word in front of a non-empty list puts one separator after it. */
  lemma JoinCons(w: string, rest: seq<string>, sep: string)
    requires |rest| > 0
    ensures Join([w] + rest, sep) == w + sep + Join(rest, sep)
  {
    assert ([w] + rest)[1..] == rest;
  }

  /** Joining two non-empty lists puts one separator between their joins. */
  lemma {:induction false} JoinAppend(xs: seq<string>, ys: seq<string>, sep: string)
    requires |xs| > 0 && |ys| > 0
    ensures Join(xs + ys, sep) == Join(xs, sep) + sep + Join(ys, sep)
  {
    if |xs| == 1 {
      assert (xs + ys)[1..] == ys;
    } else {
      assert (xs + ys)[1..] == xs[1..] + ys;
      JoinAppend(xs[1..], ys, sep);
    }
  }

  /** Each piece with a space put in front of it. */
  function Lead(ws: seq<string>): (r: seq<string>)
    ensures |r| == |ws|
    ensures forall k :: 0 <= k < |ws| ==> r[k] == " " + ws[k]
  {
    seq(|ws|, k requires 0 <= k < |ws| => " " + ws[k])
  }

  /** Pieces joined with ", " are pieces, each but the first led by a space, joined with ",". */
  lemma {:induction false} CommaSpaceJoin(ws: seq<string>)
    requires |ws| > 0
    ensures Join(ws, ", ") == Join([ws[0]] + Lead(ws[1..]), ",")
  {
    if |ws| > 1 {
      LeadJoin(ws[1..]);
      assert ([ws[0]] + Lead(ws[1..]))[1..] == Lead(ws[1..]);
    }
  }

  /** Led pieces joined with "," are the pieces joined with ", ", led by one space. */
  lemma {:induction false} LeadJoin(ws: seq<string>)
    requires |ws| > 0
    ensures Join(Lead(ws), ",") == " " + Join(ws, ", ")
  {
    if |ws| > 1 {
      assert Lead(ws)[1..] == Lead(ws[1..]);
      LeadJoin(ws[1..]);
    }
  }

  /** The index of the first `c` in `s`, or `|s|` when there is none. */
  function IndexOfChar(s: string, c: char): (i: nat)
    ensures i <= |s|
    ensures forall j :: 0 <= j < i ==> s[j] != c
    ensures i < |s| ==> s[i] == c
  {
    if |s| == 0 then 0
    else if s[0] == c then 0
    else 1 + IndexOfChar(s[1..], c)
  }

  /** `s.split(c)`: the maximal pieces of `s` free of `c`, in order. */
  function Split(s: string, c: char): (ws: seq<string>)
    ensures |ws| > 0
    ensures forall k :: 0 <= k < |ws| ==> c !in ws[k]
    decreases |s|
  {
    var i := IndexOfChar(s, c);
    if i == |s| then [s] else [s[..i]] + Split(s[i + 1..], c)
  }

  /** Splitting on `c` undoes joining with `c` when no piece holds `c`. */
  lemma {:induction false} SplitJoin(ws: seq<string>, c: char)
    requires |ws| > 0
    requires forall k :: 0 <= k < |ws| ==> c !in ws[k]
    ensures Split(Join(ws, [c]), c) == ws
  {
    var s := Join(ws, [c]);
    var w := ws[0];
    if |ws| == 1 {
      assert IndexOfChar(s, c) == |s|;
    } else {
      assert c !in w;
      var rest := Join(ws[1..], [c]);
      assert s == w + [c] + rest;
      var i := IndexOfChar(s, c);
      assert s[|w|] == c;
      assert i == |w|;
      assert s[..i] == w;
      assert s[i + 1..] == rest;
      forall k | 0 <= k < |ws[1..]|
        ensures c !in ws[1..][k]
      {
        assert ws[1..][k] == ws[k + 1];
      }
      SplitJoin(ws[1..], c);
    }
  }

  /** The character of a decimal digit `0 <= d < 10`. */
  function DigitChar(d: int): char
    requires 0 <= d < 10
  {
    "0123456789"[d]
  }

  /** The numeric value of a character, or -1 when it is not a decimal digit. */
  function DigitValue(c: char): int
  {
    if '0' <= c <= '9' then c as int - '0' as int else -1
  }

  /** Every character is a decimal digit. */
  predicate AllDigits(s: string)
  {
    forall k :: 0 <= k < |s| ==> 0 <= DigitValue(s[k]) < 10
  }

  /** `${n}` for a natural number: its decimal digits, most significant first, without leading zeros. */
  function NatToString(n: nat): (s: string)
    ensures |s| > 0 && AllDigits(s)
    ensures s[0] == '0' ==> n == 0
  {
    if n < 10 then [DigitChar(n)] else NatToString(n / 10) + [DigitChar(n % 10)]
  }

  /** The value of a string of decimal digits, read most significant first. */
  function ParseDigits(s: string): int
  {
    if |s| == 0 then 0 else ParseDigits(s[..|s| - 1]) * 10 + DigitValue(s[|s| - 1])
  }

  /** Reading back the decimal rendering yields the number. */
  lemma {:induction false} ParseNatToString(n: nat)
    ensures ParseDigits(NatToString(n)) == n
  {
    var s := NatToString(n);
    if n < 10 {
      assert DigitValue(DigitChar(n)) == n;
    } else {
      var p := NatToString(n / 10);
      assert s[..|s| - 1] == p;
      assert DigitValue(DigitChar(n % 10)) == n % 10;
      ParseNatToString(n / 10);
    }
  }

  /** Distinct numbers render as distinct texts. */
  lemma NatToStringInjective(a: nat, b: nat)
    requires a != b
    ensures NatToString(a) != NatToString(b)
  {
    ParseNatToString(a);
    ParseNatToString(b);
  }
}
