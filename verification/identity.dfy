/** The anonymous identity: a display name derived deterministically from the user id by
    a 32-bit string hash mapped into 1..9999 and zero-padded to four digits, and a colour
    picked from a fixed palette. */
module Identity {
  import opened Text
  import opened ForumTypes

  const TwoTo32: int := 0x1_0000_0000
  const TwoTo31: int := 0x8000_0000

  /** ECMAScript ToInt32 (section 7.1.6 of ECMA-262): the signed 32-bit integer congruent
      to `x` modulo 2^32. */
  function ToInt32(x: int): (r: int)
    ensures -TwoTo31 <= r < TwoTo31
    ensures (x - r) % TwoTo32 == 0
  {
    var m := x % TwoTo32;
    if m >= TwoTo31 then m - TwoTo32 else m
  }

  /** ToInt32 depends only on the residue modulo 2^32. */
  lemma ToInt32Congruent(x: int, y: int)
    requires (x - y) % TwoTo32 == 0
    ensures ToInt32(x) == ToInt32(y)
  {
    var d := (x - y) / TwoTo32;
    assert x == y + d * TwoTo32;
    assert x % TwoTo32 == y % TwoTo32;
  }

  /** One step of the reducer: `a = ((a << 5) - a) + code; return a & a`. The shift works
      on the 32-bit value and `a & a` truncates the sum back to 32 bits. */
  function HashStep(a: int, code: CodeUnit): int {
    ToInt32(ToInt32(a * 32) - a + code)
  }

  /** The step is the classic "times 31 plus code" string hash, taken modulo 2^32. */
  lemma HashStepTimes31(a: int, code: CodeUnit)
    ensures HashStep(a, code) == ToInt32(31 * a + code)
  {
    var s := ToInt32(a * 32);
    assert (a * 32 - s) % TwoTo32 == 0;
    assert (s - a + code) - (31 * a + code) == -(a * 32 - s);
    ToInt32Congruent(s - a + code, 31 * a + code);
  }

  /** The reducer folded from 0 over a run of code units. */
  function HashUnits(units: seq<CodeUnit>): (h: int)
    ensures -TwoTo31 <= h < TwoTo31
  {
    if units == [] then 0 else HashStep(HashUnits(units[..|units| - 1]), units[|units| - 1])
  }

  /** `userId.split('').reduce(step, 0)`: `split('')` yields one string per UTF-16 code
      unit, and `charCodeAt(0)` reads that unit back. */
  function Hash(id: string): (h: int)
    ensures -TwoTo31 <= h < TwoTo31
  {
    HashUnits(Utf16(id))
  }

  /** One more code unit is one more "times 31 plus code" step. */
  lemma HashUnitsSnoc(units: seq<CodeUnit>, code: CodeUnit)
    ensures HashUnits(units + [code]) == ToInt32(31 * HashUnits(units) + code)
  {
    assert (units + [code])[..|units|] == units;
    HashStepTimes31(HashUnits(units), code);
  }

  /** Appending a character below U+10000 takes one reducer step on its code: the hash of
      the longer id is 31 times the old hash plus the code, as a signed 32-bit value. A
      wider character takes two steps, one per surrogate. */
  lemma HashAppend(id: string, c: char)
    ensures c as int < 0x1_0000 ==> Hash(id + [c]) == ToInt32(31 * Hash(id) + c as int)
    ensures c as int >= 0x1_0000 ==> var u := CodeUnits(c);
      Hash(id + [c]) == ToInt32(31 * ToInt32(31 * Hash(id) + u[0]) + u[1])
  {
    Utf16Snoc(id, c);
    var u := CodeUnits(c);
    var before := Utf16(id);
    if c as int < 0x1_0000 {
      assert Utf16(id + [c]) == before + [c as int] by {
        assert u == [c as int];
      }
      HashUnitsSnoc(before, c as int);
    } else {
      assert Utf16(id + [c]) == before + [u[0], u[1]] by {
        assert u == [u[0], u[1]];
      }
      HashPair(before, u[0], u[1]);
    }
  }

  /** Two more code units are two more steps. */
  lemma HashPair(units: seq<CodeUnit>, hi: CodeUnit, lo: CodeUnit)
    ensures HashUnits(units + [hi, lo]) == ToInt32(31 * ToInt32(31 * HashUnits(units) + hi) + lo)
  {
    assert units + [hi, lo] == (units + [hi]) + [lo];
    HashUnitsSnoc(units, hi);
    HashUnitsSnoc(units + [hi], lo);
  }

  function Abs(x: int): nat {
    if x < 0 then -x else x
  }

  /** `Math.abs(hash) % 9999 + 1`. */
  function AnonymousNumber(id: string): (n: int)
    ensures 1 <= n <= 9999
  {
    Abs(Hash(id)) % 9999 + 1
  }

  const NamePrefix: string := "Anonymous User #"

  /** `generateAnonymousName(userId)`: the prefix followed by the number, zero-padded to
      exactly four digits that read back as the number. */
  function GenerateAnonymousName(id: string): (r: string)
    ensures |r| == |NamePrefix| + 4
    ensures r[..|NamePrefix|] == NamePrefix
    ensures forall i :: |NamePrefix| <= i < |r| ==> IsDigit(r[i])
    ensures ParseDecimal(r[|NamePrefix|..]) == AnonymousNumber(id)
    ensures 1 <= ParseDecimal(r[|NamePrefix|..]) <= 9999
  {
    var n := AnonymousNumber(id);
    var digits := NatToString(n);
    NatToStringLength(n);
    NatToStringParses(n);
    var padded := PadStart(digits, 4, '0');
    LeadingZeros(4 - |digits|, digits);
    assert padded == Repeat('0', 4 - |digits|) + digits;
    var r := NamePrefix + padded;
    assert r[|NamePrefix|..] == padded;
    r
  }

  /** The palette a new user's colour is drawn from. */
  const AnonymousColors: seq<string> := [
    "#3b82f6", "#ef4444", "#10b981", "#f59e0b", "#8b5cf6",
    "#06b6d4", "#f97316", "#84cc16", "#ec4899", "#6366f1"
  ]

  /** The identity `getCurrentUser` creates on first use, given the generated UUID and the
      random palette index `Math.floor(Math.random() * 10)`. */
  function NewUser(id: string, colorIndex: nat): (u: User)
    requires colorIndex < |AnonymousColors|
    ensures u.id == id
    ensures u.color in AnonymousColors
    ensures u.displayName == GenerateAnonymousName(id)
  {
    User(id, GenerateAnonymousName(id), AnonymousColors[colorIndex])
  }
}
