/** The error words of a data block, computed through the tables (section 7.5.2 of ISO/IEC 18004). */
module ErrorBlock {
  import opened GaloisField
  import opened GaloisTables
  import opened PolyDivision

  /** The numbers of error words there are generators for. */
  predicate HasGenerator(n: nat) {
    n in {7, 10, 13, 15, 16, 17, 18, 20, 22, 24, 26, 28, 30}
  }

  // Exponents of the generators' coefficients below the leading one, by number of error words.

  function Generator7(i: nat): nat {
    match i
    case 0 => 87 case 1 => 229 case 2 => 146 case 3 => 149 case 4 => 238 case 5 => 102 case _ => 21
  }

  function Generator10(i: nat): nat {
    match i
    case 0 => 251 case 1 => 67 case 2 => 46 case 3 => 61 case 4 => 118 case 5 => 70 case 6 => 64 case 7 => 94
    case 8 => 32 case _ => 45
  }

  function Generator13(i: nat): nat {
    match i
    case 0 => 74 case 1 => 152 case 2 => 176 case 3 => 100 case 4 => 86 case 5 => 100 case 6 => 106 case 7 => 104
    case 8 => 130 case 9 => 218 case 10 => 206 case 11 => 140 case _ => 78
  }

  function Generator15(i: nat): nat {
    match i
    case 0 => 8 case 1 => 183 case 2 => 61 case 3 => 91 case 4 => 202 case 5 => 37 case 6 => 51 case 7 => 58
    case 8 => 58 case 9 => 237 case 10 => 140 case 11 => 124 case 12 => 5 case 13 => 99 case _ => 105
  }

  function Generator16(i: nat): nat {
    match i
    case 0 => 120 case 1 => 104 case 2 => 107 case 3 => 109 case 4 => 102 case 5 => 161 case 6 => 76 case 7 => 3
    case 8 => 91 case 9 => 191 case 10 => 147 case 11 => 169 case 12 => 182 case 13 => 194 case 14 => 225 case _ => 120
  }

  function Generator17(i: nat): nat {
    match i
    case 0 => 43 case 1 => 139 case 2 => 206 case 3 => 78 case 4 => 43 case 5 => 239 case 6 => 123 case 7 => 206
    case 8 => 214 case 9 => 147 case 10 => 24 case 11 => 99 case 12 => 150 case 13 => 39 case 14 => 243 case 15 => 163
    case _ => 136
  }

  function Generator18(i: nat): nat {
    match i
    case 0 => 215 case 1 => 234 case 2 => 158 case 3 => 94 case 4 => 184 case 5 => 97 case 6 => 118 case 7 => 170
    case 8 => 79 case 9 => 187 case 10 => 152 case 11 => 148 case 12 => 252 case 13 => 179 case 14 => 5 case 15 => 98
    case 16 => 96 case _ => 153
  }

  function Generator20(i: nat): nat {
    match i
    case 0 => 17 case 1 => 60 case 2 => 79 case 3 => 50 case 4 => 61 case 5 => 163 case 6 => 26 case 7 => 187
    case 8 => 202 case 9 => 180 case 10 => 221 case 11 => 225 case 12 => 83 case 13 => 239 case 14 => 156 case 15 => 164
    case 16 => 212 case 17 => 212 case 18 => 188 case _ => 190
  }

  function Generator22(i: nat): nat {
    match i
    case 0 => 210 case 1 => 171 case 2 => 247 case 3 => 242 case 4 => 93 case 5 => 230 case 6 => 14 case 7 => 109
    case 8 => 221 case 9 => 53 case 10 => 200 case 11 => 74 case 12 => 8 case 13 => 172 case 14 => 98 case 15 => 80
    case 16 => 219 case 17 => 134 case 18 => 160 case 19 => 105 case 20 => 165 case _ => 231
  }

  function Generator24(i: nat): nat {
    match i
    case 0 => 229 case 1 => 121 case 2 => 135 case 3 => 48 case 4 => 211 case 5 => 117 case 6 => 251 case 7 => 126
    case 8 => 159 case 9 => 180 case 10 => 169 case 11 => 152 case 12 => 192 case 13 => 226 case 14 => 228
    case 15 => 218 case 16 => 111 case 17 => 0 case 18 => 117 case 19 => 232 case 20 => 87 case 21 => 96
    case 22 => 227 case _ => 21
  }

  function Generator26(i: nat): nat {
    match i
    case 0 => 173 case 1 => 125 case 2 => 158 case 3 => 2 case 4 => 103 case 5 => 182 case 6 => 118 case 7 => 17
    case 8 => 145 case 9 => 201 case 10 => 111 case 11 => 28 case 12 => 165 case 13 => 53 case 14 => 161 case 15 => 21
    case 16 => 245 case 17 => 142 case 18 => 13 case 19 => 102 case 20 => 48 case 21 => 227 case 22 => 153
    case 23 => 145 case 24 => 218 case _ => 70
  }

  function Generator28(i: nat): nat {
    match i
    case 0 => 168 case 1 => 223 case 2 => 200 case 3 => 104 case 4 => 224 case 5 => 234 case 6 => 108 case 7 => 180
    case 8 => 110 case 9 => 190 case 10 => 195 case 11 => 147 case 12 => 205 case 13 => 27 case 14 => 232 case 15 => 201
    case 16 => 21 case 17 => 43 case 18 => 245 case 19 => 87 case 20 => 42 case 21 => 195 case 22 => 212 case 23 => 119
    case 24 => 242 case 25 => 37 case 26 => 9 case _ => 123
  }

  function Generator30(i: nat): nat {
    match i
    case 0 => 41 case 1 => 173 case 2 => 145 case 3 => 152 case 4 => 216 case 5 => 31 case 6 => 179 case 7 => 182
    case 8 => 50 case 9 => 48 case 10 => 110 case 11 => 86 case 12 => 239 case 13 => 96 case 14 => 222 case 15 => 125
    case 16 => 42 case 17 => 173 case 18 => 226 case 19 => 193 case 20 => 224 case 21 => 130 case 22 => 156
    case 23 => 37 case 24 => 251 case 25 => 216 case 26 => 238 case 27 => 40 case 28 => 192 case _ => 180
  }

  function Coefficient(n: nat, i: nat): nat {
    match n
    case 7 => Generator7(i)
    case 10 => Generator10(i)
    case 13 => Generator13(i)
    case 15 => Generator15(i)
    case 16 => Generator16(i)
    case 17 => Generator17(i)
    case 18 => Generator18(i)
    case 20 => Generator20(i)
    case 22 => Generator22(i)
    case 24 => Generator24(i)
    case 26 => Generator26(i)
    case 28 => Generator28(i)
    case _ => Generator30(i)
  }

  function Generator(n: nat): (g: seq<nat>)
    ensures |g| == n && forall i :: 0 <= i < n ==> g[i] == Coefficient(n, i)
  {
    seq(n, i requires 0 <= i < n => Coefficient(n, i))
  }

  lemma CoefficientByte(n: nat, i: nat)
    ensures Coefficient(n, i) < 255
  {
  }

  lemma GeneratorBytes(n: nat)
    ensures forall i :: 0 <= i < n ==> Generator(n)[i] < 255
  {
    hide Coefficient;
    forall i | 0 <= i < n ensures Generator(n)[i] < 255 { CoefficientByte(n, i); }
  }

  lemma ReduceZero(p: Poly, g: seq<nat>)
    requires |p| > |g| && p[0] == 0
    ensures Reduce(p, g) == p[1..]
  {
    hide Add, Scale;
    forall i | 0 <= i < |g| ensures Add(p[1..|g| + 1][i], Term(g, 0)[i]) == p[i + 1] {
      ScaleZero(g[i]);
      AddZero(p[i + 1]);
    }
  }

  /** Takes `coefficient` times the generator off the front of the message. */
  method Subtract(message: Poly, coefficient: Element, generator: seq<nat>) returns (r: Poly)
    requires coefficient != 0 && |message| >= |generator| && forall i :: 0 <= i < |generator| ==> generator[i] < 255
    ensures r == Reduce([coefficient] + message, generator)
  {
    hide Add, Scale, GaloisLog, GaloisAntilog;
    r := message;
    var alphaExp := GaloisAntilog(coefficient);
    AntilogInverts(coefficient);
    ghost var p := [coefficient] + message;
    var n := 0;
    while n < |generator|
      invariant 0 <= n <= |generator| && |r| == |message|
      invariant forall i :: 0 <= i < n ==> r[i] == Add(message[i], Scale(generator[i], coefficient))
      invariant forall i :: n <= i < |message| ==> r[i] == message[i]
    {
      TableProduct(coefficient, generator[n]);
      var genResult := GaloisLog(SumIndex(alphaExp, generator[n]));
      AddCommutes(genResult, r[n]);
      r := r[n := Add(genResult, r[n])];
      n := n + 1;
    }
    assert p[1..] == message;
    assert p[1..n + 1] == message[..n] && p[n + 1..] == message[n..];
  }

  /** The error block: the error words, filled up with zeros to the length of the data block. */
  method MakeErrorBlock(block: Poly, codeWords: nat, errorBlockSize: nat) returns (r: Poly)
    requires |block| == codeWords && HasGenerator(errorBlockSize)
    ensures |r| == if errorBlockSize < codeWords then codeWords else errorBlockSize
    ensures r[..errorBlockSize] == ErrorWords(block, Generator(errorBlockSize))
    ensures forall i :: errorBlockSize <= i < |r| ==> r[i] == 0
  {
    hide Reduce, Remainder, HasGenerator, Coefficient;
    var generator := Generator(errorBlockSize);
    GeneratorBytes(errorBlockSize);
    var mp := block + Zeros(errorBlockSize);
    var i := 0;
    while i < codeWords
      invariant 0 <= i <= codeWords && |mp| == codeWords - i + errorBlockSize
      invariant Remainder(mp, generator) == ErrorWords(block, generator)
    {
      var coefficient := mp[0];
      RemainderStep(mp, generator);
      assert mp == [coefficient] + mp[1..];
      if coefficient == 0 {
        ReduceZero(mp, generator);
        mp := mp[1..];
      } else {
        mp := Subtract(mp[1..], coefficient, generator);
      }
      i := i + 1;
    }
    RemainderDone(mp, generator);
    r := mp;
    if |mp| < codeWords {
      r := mp + Zeros(codeWords - |mp|);
    }
  }

  lemma RemainderStep(p: Poly, g: seq<nat>)
    requires |p| > |g|
    ensures Remainder(p, g) == Remainder(Reduce(p, g), g)
  {
    hide Reduce;
  }

  lemma RemainderDone(p: Poly, g: seq<nat>)
    requires |p| == |g|
    ensures Remainder(p, g) == p
  {
  }
}
