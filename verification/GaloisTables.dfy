/** The logarithm tables of the encoder and the arithmetic they stand for. */
module GaloisTables {
  import opened Bitwise
  import opened GaloisField

  // `galois_log`: powers of two, in rows of sixteen.

  function Log0(c: nat): Element {
    match c
    case 0 => 1 case 1 => 2 case 2 => 4 case 3 => 8 case 4 => 16 case 5 => 32 case 6 => 64 case 7 => 128
    case 8 => 29 case 9 => 58 case 10 => 116 case 11 => 232 case 12 => 205 case 13 => 135 case 14 => 19 case _ => 38
  }

  function Log1(c: nat): Element {
    match c
    case 0 => 76 case 1 => 152 case 2 => 45 case 3 => 90 case 4 => 180 case 5 => 117 case 6 => 234 case 7 => 201
    case 8 => 143 case 9 => 3 case 10 => 6 case 11 => 12 case 12 => 24 case 13 => 48 case 14 => 96 case _ => 192
  }

  function Log2(c: nat): Element {
    match c
    case 0 => 157 case 1 => 39 case 2 => 78 case 3 => 156 case 4 => 37 case 5 => 74 case 6 => 148 case 7 => 53
    case 8 => 106 case 9 => 212 case 10 => 181 case 11 => 119 case 12 => 238 case 13 => 193 case 14 => 159 case _ => 35
  }

  function Log3(c: nat): Element {
    match c
    case 0 => 70 case 1 => 140 case 2 => 5 case 3 => 10 case 4 => 20 case 5 => 40 case 6 => 80 case 7 => 160
    case 8 => 93 case 9 => 186 case 10 => 105 case 11 => 210 case 12 => 185 case 13 => 111 case 14 => 222 case _ => 161
  }

  function Log4(c: nat): Element {
    match c
    case 0 => 95 case 1 => 190 case 2 => 97 case 3 => 194 case 4 => 153 case 5 => 47 case 6 => 94 case 7 => 188
    case 8 => 101 case 9 => 202 case 10 => 137 case 11 => 15 case 12 => 30 case 13 => 60 case 14 => 120 case _ => 240
  }

  function Log5(c: nat): Element {
    match c
    case 0 => 253 case 1 => 231 case 2 => 211 case 3 => 187 case 4 => 107 case 5 => 214 case 6 => 177 case 7 => 127
    case 8 => 254 case 9 => 225 case 10 => 223 case 11 => 163 case 12 => 91 case 13 => 182 case 14 => 113 case _ => 226
  }

  function Log6(c: nat): Element {
    match c
    case 0 => 217 case 1 => 175 case 2 => 67 case 3 => 134 case 4 => 17 case 5 => 34 case 6 => 68 case 7 => 136
    case 8 => 13 case 9 => 26 case 10 => 52 case 11 => 104 case 12 => 208 case 13 => 189 case 14 => 103 case _ => 206
  }

  function Log7(c: nat): Element {
    match c
    case 0 => 129 case 1 => 31 case 2 => 62 case 3 => 124 case 4 => 248 case 5 => 237 case 6 => 199 case 7 => 147
    case 8 => 59 case 9 => 118 case 10 => 236 case 11 => 197 case 12 => 151 case 13 => 51 case 14 => 102 case _ => 204
  }

  function Log8(c: nat): Element {
    match c
    case 0 => 133 case 1 => 23 case 2 => 46 case 3 => 92 case 4 => 184 case 5 => 109 case 6 => 218 case 7 => 169
    case 8 => 79 case 9 => 158 case 10 => 33 case 11 => 66 case 12 => 132 case 13 => 21 case 14 => 42 case _ => 84
  }

  function Log9(c: nat): Element {
    match c
    case 0 => 168 case 1 => 77 case 2 => 154 case 3 => 41 case 4 => 82 case 5 => 164 case 6 => 85 case 7 => 170
    case 8 => 73 case 9 => 146 case 10 => 57 case 11 => 114 case 12 => 228 case 13 => 213 case 14 => 183 case _ => 115
  }

  function Log10(c: nat): Element {
    match c
    case 0 => 230 case 1 => 209 case 2 => 191 case 3 => 99 case 4 => 198 case 5 => 145 case 6 => 63 case 7 => 126
    case 8 => 252 case 9 => 229 case 10 => 215 case 11 => 179 case 12 => 123 case 13 => 246 case 14 => 241 case _ => 255
  }

  function Log11(c: nat): Element {
    match c
    case 0 => 227 case 1 => 219 case 2 => 171 case 3 => 75 case 4 => 150 case 5 => 49 case 6 => 98 case 7 => 196
    case 8 => 149 case 9 => 55 case 10 => 110 case 11 => 220 case 12 => 165 case 13 => 87 case 14 => 174 case _ => 65
  }

  function Log12(c: nat): Element {
    match c
    case 0 => 130 case 1 => 25 case 2 => 50 case 3 => 100 case 4 => 200 case 5 => 141 case 6 => 7 case 7 => 14
    case 8 => 28 case 9 => 56 case 10 => 112 case 11 => 224 case 12 => 221 case 13 => 167 case 14 => 83 case _ => 166
  }

  function Log13(c: nat): Element {
    match c
    case 0 => 81 case 1 => 162 case 2 => 89 case 3 => 178 case 4 => 121 case 5 => 242 case 6 => 249 case 7 => 239
    case 8 => 195 case 9 => 155 case 10 => 43 case 11 => 86 case 12 => 172 case 13 => 69 case 14 => 138 case _ => 9
  }

  function Log14(c: nat): Element {
    match c
    case 0 => 18 case 1 => 36 case 2 => 72 case 3 => 144 case 4 => 61 case 5 => 122 case 6 => 244 case 7 => 245
    case 8 => 247 case 9 => 243 case 10 => 251 case 11 => 235 case 12 => 203 case 13 => 139 case 14 => 11 case _ => 22
  }

  function Log15(c: nat): Element {
    match c
    case 0 => 44 case 1 => 88 case 2 => 176 case 3 => 125 case 4 => 250 case 5 => 233 case 6 => 207 case 7 => 131
    case 8 => 27 case 9 => 54 case 10 => 108 case 11 => 216 case 12 => 173 case 13 => 71 case 14 => 142 case _ => 1
  }

  // `galois_antilog`: the power of two that an element is; the first entry is not used.

  function Antilog0(c: nat): nat {
    match c
    case 0 => 0 case 1 => 0 case 2 => 1 case 3 => 25 case 4 => 2 case 5 => 50 case 6 => 26 case 7 => 198
    case 8 => 3 case 9 => 223 case 10 => 51 case 11 => 238 case 12 => 27 case 13 => 104 case 14 => 199 case _ => 75
  }

  function Antilog1(c: nat): nat {
    match c
    case 0 => 4 case 1 => 100 case 2 => 224 case 3 => 14 case 4 => 52 case 5 => 141 case 6 => 239 case 7 => 129
    case 8 => 28 case 9 => 193 case 10 => 105 case 11 => 248 case 12 => 200 case 13 => 8 case 14 => 76 case _ => 113
  }

  function Antilog2(c: nat): nat {
    match c
    case 0 => 5 case 1 => 138 case 2 => 101 case 3 => 47 case 4 => 225 case 5 => 36 case 6 => 15 case 7 => 33
    case 8 => 53 case 9 => 147 case 10 => 142 case 11 => 218 case 12 => 240 case 13 => 18 case 14 => 130 case _ => 69
  }

  function Antilog3(c: nat): nat {
    match c
    case 0 => 29 case 1 => 181 case 2 => 194 case 3 => 125 case 4 => 106 case 5 => 39 case 6 => 249 case 7 => 185
    case 8 => 201 case 9 => 154 case 10 => 9 case 11 => 120 case 12 => 77 case 13 => 228 case 14 => 114 case _ => 166
  }

  function Antilog4(c: nat): nat {
    match c
    case 0 => 6 case 1 => 191 case 2 => 139 case 3 => 98 case 4 => 102 case 5 => 221 case 6 => 48 case 7 => 253
    case 8 => 226 case 9 => 152 case 10 => 37 case 11 => 179 case 12 => 16 case 13 => 145 case 14 => 34 case _ => 136
  }

  function Antilog5(c: nat): nat {
    match c
    case 0 => 54 case 1 => 208 case 2 => 148 case 3 => 206 case 4 => 143 case 5 => 150 case 6 => 219 case 7 => 189
    case 8 => 241 case 9 => 210 case 10 => 19 case 11 => 92 case 12 => 131 case 13 => 56 case 14 => 70 case _ => 64
  }

  function Antilog6(c: nat): nat {
    match c
    case 0 => 30 case 1 => 66 case 2 => 182 case 3 => 163 case 4 => 195 case 5 => 72 case 6 => 126 case 7 => 110
    case 8 => 107 case 9 => 58 case 10 => 40 case 11 => 84 case 12 => 250 case 13 => 133 case 14 => 186 case _ => 61
  }

  function Antilog7(c: nat): nat {
    match c
    case 0 => 202 case 1 => 94 case 2 => 155 case 3 => 159 case 4 => 10 case 5 => 21 case 6 => 121 case 7 => 43
    case 8 => 78 case 9 => 212 case 10 => 229 case 11 => 172 case 12 => 115 case 13 => 243 case 14 => 167 case _ => 87
  }

  function Antilog8(c: nat): nat {
    match c
    case 0 => 7 case 1 => 112 case 2 => 192 case 3 => 247 case 4 => 140 case 5 => 128 case 6 => 99 case 7 => 13
    case 8 => 103 case 9 => 74 case 10 => 222 case 11 => 237 case 12 => 49 case 13 => 197 case 14 => 254 case _ => 24
  }

  function Antilog9(c: nat): nat {
    match c
    case 0 => 227 case 1 => 165 case 2 => 153 case 3 => 119 case 4 => 38 case 5 => 184 case 6 => 180 case 7 => 124
    case 8 => 17 case 9 => 68 case 10 => 146 case 11 => 217 case 12 => 35 case 13 => 32 case 14 => 137 case _ => 46
  }

  function Antilog10(c: nat): nat {
    match c
    case 0 => 55 case 1 => 63 case 2 => 209 case 3 => 91 case 4 => 149 case 5 => 188 case 6 => 207 case 7 => 205
    case 8 => 144 case 9 => 135 case 10 => 151 case 11 => 178 case 12 => 220 case 13 => 252 case 14 => 190 case _ => 97
  }

  function Antilog11(c: nat): nat {
    match c
    case 0 => 242 case 1 => 86 case 2 => 211 case 3 => 171 case 4 => 20 case 5 => 42 case 6 => 93 case 7 => 158
    case 8 => 132 case 9 => 60 case 10 => 57 case 11 => 83 case 12 => 71 case 13 => 109 case 14 => 65 case _ => 162
  }

  function Antilog12(c: nat): nat {
    match c
    case 0 => 31 case 1 => 45 case 2 => 67 case 3 => 216 case 4 => 183 case 5 => 123 case 6 => 164 case 7 => 118
    case 8 => 196 case 9 => 23 case 10 => 73 case 11 => 236 case 12 => 127 case 13 => 12 case 14 => 111 case _ => 246
  }

  function Antilog13(c: nat): nat {
    match c
    case 0 => 108 case 1 => 161 case 2 => 59 case 3 => 82 case 4 => 41 case 5 => 157 case 6 => 85 case 7 => 170
    case 8 => 251 case 9 => 96 case 10 => 134 case 11 => 177 case 12 => 187 case 13 => 204 case 14 => 62 case _ => 90
  }

  function Antilog14(c: nat): nat {
    match c
    case 0 => 203 case 1 => 89 case 2 => 95 case 3 => 176 case 4 => 156 case 5 => 169 case 6 => 160 case 7 => 81
    case 8 => 11 case 9 => 245 case 10 => 22 case 11 => 235 case 12 => 122 case 13 => 117 case 14 => 44 case _ => 215
  }

  function Antilog15(c: nat): nat {
    match c
    case 0 => 79 case 1 => 174 case 2 => 213 case 3 => 233 case 4 => 230 case 5 => 231 case 6 => 173 case 7 => 232
    case 8 => 116 case 9 => 214 case 10 => 244 case 11 => 234 case 12 => 168 case 13 => 80 case 14 => 88 case _ => 175
  }

  function GaloisLog(i: nat): Element
    requires i < 256
  {
    match i / 16
    case 0 => Log0(i % 16)
    case 1 => Log1(i % 16)
    case 2 => Log2(i % 16)
    case 3 => Log3(i % 16)
    case 4 => Log4(i % 16)
    case 5 => Log5(i % 16)
    case 6 => Log6(i % 16)
    case 7 => Log7(i % 16)
    case 8 => Log8(i % 16)
    case 9 => Log9(i % 16)
    case 10 => Log10(i % 16)
    case 11 => Log11(i % 16)
    case 12 => Log12(i % 16)
    case 13 => Log13(i % 16)
    case 14 => Log14(i % 16)
    case _ => Log15(i % 16)
  }

  function GaloisAntilog(c: Element): nat
    requires c != 0
  {
    match c / 16
    case 0 => Antilog0(c % 16)
    case 1 => Antilog1(c % 16)
    case 2 => Antilog2(c % 16)
    case 3 => Antilog3(c % 16)
    case 4 => Antilog4(c % 16)
    case 5 => Antilog5(c % 16)
    case 6 => Antilog6(c % 16)
    case 7 => Antilog7(c % 16)
    case 8 => Antilog8(c % 16)
    case 9 => Antilog9(c % 16)
    case 10 => Antilog10(c % 16)
    case 11 => Antilog11(c % 16)
    case 12 => Antilog12(c % 16)
    case 13 => Antilog13(c % 16)
    case 14 => Antilog14(c % 16)
    case _ => Antilog15(c % 16)
  }

  /** An even number with the bits of 29 flipped. */
  function Flipped(x: nat): int {
    x + 1 + (if x / 4 % 2 == 1 then -4 else 4) + (if x / 8 % 2 == 1 then -8 else 8)
      + (if x / 16 % 2 == 1 then -16 else 16)
  }

  lemma XorTwentyNine(x: nat)
    requires x % 2 == 0
    ensures Xor(x, 29) == Flipped(x)
  {
    hide Xor, Flipped;
    var a, b, c, d := x / 2, x / 4, x / 8, x / 16;
    DivChain(x);
    XorFlips(x, a, b, c, d);
    FlippedBits(x, a, b, c, d, d / 2);
  }

  lemma DivChain(x: nat)
    requires x % 2 == 0
    ensures x / 2 / 2 == x / 4 && x / 4 / 2 == x / 8 && x / 8 / 2 == x / 16 && x == 2 * (x / 2)
  {
  }

  lemma XorFlips(x: nat, a: nat, b: nat, c: nat, d: nat)
    requires x / 2 == a && a / 2 == b && b / 2 == c && c / 2 == d && x % 2 == 0
    ensures Xor(x, 29) == 32 * (d / 2) + 16 * (1 - d % 2) + 8 * (1 - c % 2) + 4 * (1 - b % 2) + 2 * (a % 2) + 1
  {
    hide Xor;
    XorZero(d / 2);
    XorOdd(d, 0);
    XorOdd(c, 1);
    XorOdd(b, 3);
    XorEven(a, 7);
    XorOdd(x, 14);
  }

  lemma XorEven(x: nat, m: nat)
    ensures Xor(x, 2 * m) == 2 * Xor(x / 2, m) + x % 2
  {
    hide Xor;
    XorStep(x, 2 * m);
  }

  lemma FlippedBits(x: nat, a: nat, b: nat, c: nat, d: nat, e: nat)
    requires x == 2 * a && b == x / 4 && c == x / 8 && d == x / 16
    requires a == 2 * b + a % 2 && b == 2 * c + b % 2 && c == 2 * d + c % 2 && d == 2 * e + d % 2
    ensures Flipped(x) == 32 * e + 16 * (1 - d % 2) + 8 * (1 - c % 2) + 4 * (1 - b % 2) + 2 * (a % 2) + 1
  {
  }

  lemma XorOdd(x: nat, m: nat)
    ensures Xor(x, 2 * m + 1) == 2 * Xor(x / 2, m) + (if x % 2 == 1 then 0 else 1)
  {
    hide Xor;
    XorStep(x, 2 * m + 1);
  }

  function Doubled(a: nat): int {
    if a >= 128 then Flipped(2 * a - 256) else 2 * a
  }

  lemma DoubleIsDoubled(a: Element)
    ensures Double(a) == Doubled(a)
  {
    if a >= 128 { XorTwentyNine(2 * a - 256); }
  }

  lemma Log0Doubles(c: nat)
    requires c < 16
    ensures Doubled(Log0(c)) == if c == 15 then 76 else Log0(c + 1)
  {
  }

  lemma Log1Doubles(c: nat)
    requires c < 16
    ensures Doubled(Log1(c)) == if c == 15 then 157 else Log1(c + 1)
  {
  }

  lemma Log2Doubles(c: nat)
    requires c < 16
    ensures Doubled(Log2(c)) == if c == 15 then 70 else Log2(c + 1)
  {
  }

  lemma Log3Doubles(c: nat)
    requires c < 16
    ensures Doubled(Log3(c)) == if c == 15 then 95 else Log3(c + 1)
  {
  }

  lemma Log4Doubles(c: nat)
    requires c < 16
    ensures Doubled(Log4(c)) == if c == 15 then 253 else Log4(c + 1)
  {
  }

  lemma Log5Doubles(c: nat)
    requires c < 16
    ensures Doubled(Log5(c)) == if c == 15 then 217 else Log5(c + 1)
  {
  }

  lemma Log6Doubles(c: nat)
    requires c < 16
    ensures Doubled(Log6(c)) == if c == 15 then 129 else Log6(c + 1)
  {
  }

  lemma Log7Doubles(c: nat)
    requires c < 16
    ensures Doubled(Log7(c)) == if c == 15 then 133 else Log7(c + 1)
  {
  }

  lemma Log8Doubles(c: nat)
    requires c < 16
    ensures Doubled(Log8(c)) == if c == 15 then 168 else Log8(c + 1)
  {
  }

  lemma Log9Doubles(c: nat)
    requires c < 16
    ensures Doubled(Log9(c)) == if c == 15 then 230 else Log9(c + 1)
  {
  }

  lemma Log10Doubles(c: nat)
    requires c < 16
    ensures Doubled(Log10(c)) == if c == 15 then 227 else Log10(c + 1)
  {
  }

  lemma Log11Doubles(c: nat)
    requires c < 16
    ensures Doubled(Log11(c)) == if c == 15 then 130 else Log11(c + 1)
  {
  }

  lemma Log12Doubles(c: nat)
    requires c < 16
    ensures Doubled(Log12(c)) == if c == 15 then 81 else Log12(c + 1)
  {
  }

  lemma Log13Doubles(c: nat)
    requires c < 16
    ensures Doubled(Log13(c)) == if c == 15 then 18 else Log13(c + 1)
  {
  }

  lemma Log14Doubles(c: nat)
    requires c < 16
    ensures Doubled(Log14(c)) == if c == 15 then 44 else Log14(c + 1)
  {
  }

  lemma Log15Doubles(c: nat)
    requires c < 16
    ensures Doubled(Log15(c)) == if c == 15 then 2 else Log15(c + 1)
  {
  }

  lemma Antilog0Inverts(k: nat)
    requires 1 <= k < 16
    ensures Antilog0(k) < 255 && GaloisLog(Antilog0(k)) == 0 + k
  {
  }

  lemma Antilog1Inverts(k: nat)
    requires k < 16
    ensures Antilog1(k) < 255 && GaloisLog(Antilog1(k)) == 16 + k
  {
  }

  lemma Antilog2Inverts(k: nat)
    requires k < 16
    ensures Antilog2(k) < 255 && GaloisLog(Antilog2(k)) == 32 + k
  {
  }

  lemma Antilog3Inverts(k: nat)
    requires k < 16
    ensures Antilog3(k) < 255 && GaloisLog(Antilog3(k)) == 48 + k
  {
  }

  lemma Antilog4Inverts(k: nat)
    requires k < 16
    ensures Antilog4(k) < 255 && GaloisLog(Antilog4(k)) == 64 + k
  {
  }

  lemma Antilog5Inverts(k: nat)
    requires k < 16
    ensures Antilog5(k) < 255 && GaloisLog(Antilog5(k)) == 80 + k
  {
  }

  lemma Antilog6Inverts(k: nat)
    requires k < 16
    ensures Antilog6(k) < 255 && GaloisLog(Antilog6(k)) == 96 + k
  {
  }

  lemma Antilog7Inverts(k: nat)
    requires k < 16
    ensures Antilog7(k) < 255 && GaloisLog(Antilog7(k)) == 112 + k
  {
  }

  lemma Antilog8Inverts(k: nat)
    requires k < 16
    ensures Antilog8(k) < 255 && GaloisLog(Antilog8(k)) == 128 + k
  {
  }

  lemma Antilog9Inverts(k: nat)
    requires k < 16
    ensures Antilog9(k) < 255 && GaloisLog(Antilog9(k)) == 144 + k
  {
  }

  lemma Antilog10Inverts(k: nat)
    requires k < 16
    ensures Antilog10(k) < 255 && GaloisLog(Antilog10(k)) == 160 + k
  {
  }

  lemma Antilog11Inverts(k: nat)
    requires k < 16
    ensures Antilog11(k) < 255 && GaloisLog(Antilog11(k)) == 176 + k
  {
  }

  lemma Antilog12Inverts(k: nat)
    requires k < 16
    ensures Antilog12(k) < 255 && GaloisLog(Antilog12(k)) == 192 + k
  {
  }

  lemma Antilog13Inverts(k: nat)
    requires k < 16
    ensures Antilog13(k) < 255 && GaloisLog(Antilog13(k)) == 208 + k
  {
  }

  lemma Antilog14Inverts(k: nat)
    requires k < 16
    ensures Antilog14(k) < 255 && GaloisLog(Antilog14(k)) == 224 + k
  {
  }

  lemma Antilog15Inverts(k: nat)
    requires k < 16
    ensures Antilog15(k) < 255 && GaloisLog(Antilog15(k)) == 240 + k
  {
  }

  /** Each entry is twice the one before. */
  lemma LogNext(i: nat)
    requires i < 255
    ensures GaloisLog(i + 1) == Double(GaloisLog(i))
  {
    hide Double, Doubled, Log0, Log1, Log2, Log3, Log4, Log5, Log6, Log7, Log8, Log9, Log10, Log11, Log12, Log13,
      Log14, Log15;
    DoubleIsDoubled(GaloisLog(i));
    var c := i % 16;
    assert c < 15 ==> (i + 1) / 16 == i / 16 && (i + 1) % 16 == c + 1;
    assert c == 15 ==> (i + 1) / 16 == i / 16 + 1 && (i + 1) % 16 == 0;
    RowStarts();
    match i / 16
    case 0 => Log0Doubles(c);
    case 1 => Log1Doubles(c);
    case 2 => Log2Doubles(c);
    case 3 => Log3Doubles(c);
    case 4 => Log4Doubles(c);
    case 5 => Log5Doubles(c);
    case 6 => Log6Doubles(c);
    case 7 => Log7Doubles(c);
    case 8 => Log8Doubles(c);
    case 9 => Log9Doubles(c);
    case 10 => Log10Doubles(c);
    case 11 => Log11Doubles(c);
    case 12 => Log12Doubles(c);
    case 13 => Log13Doubles(c);
    case 14 => Log14Doubles(c);
    case _ => Log15Doubles(c);
  }

  lemma RowStarts()
    ensures Log0(0) == 1 && Log1(0) == 76 && Log2(0) == 157 && Log3(0) == 70 && Log4(0) == 95 && Log5(0) == 253
      && Log6(0) == 217 && Log7(0) == 129
    ensures Log8(0) == 133 && Log9(0) == 168 && Log10(0) == 230 && Log11(0) == 227 && Log12(0) == 130
      && Log13(0) == 81 && Log14(0) == 18 && Log15(0) == 44
  {
  }

  lemma LogEnds()
    ensures GaloisLog(0) == 1 && GaloisLog(255) == 1
  {
  }

  /** The table holds the powers of two. */
  lemma {:induction false} LogIsPower(i: nat)
    requires i < 256
    ensures GaloisLog(i) == Scale(i, 1)
  {
    hide GaloisLog, Double;
    if i == 0 {
      LogEnds();
    } else {
      LogIsPower(i - 1);
      LogNext(i - 1);
    }
  }

  /** The second table inverts the first. */
  lemma AntilogInverts(c: Element)
    requires c != 0
    ensures GaloisAntilog(c) < 255 && GaloisLog(GaloisAntilog(c)) == c
  {
    hide GaloisLog, Antilog0, Antilog1, Antilog2, Antilog3, Antilog4, Antilog5, Antilog6, Antilog7, Antilog8,
      Antilog9, Antilog10, Antilog11, Antilog12, Antilog13, Antilog14, Antilog15;
    match c / 16
    case 0 => Antilog0Inverts(c % 16);
    case 1 => Antilog1Inverts(c % 16);
    case 2 => Antilog2Inverts(c % 16);
    case 3 => Antilog3Inverts(c % 16);
    case 4 => Antilog4Inverts(c % 16);
    case 5 => Antilog5Inverts(c % 16);
    case 6 => Antilog6Inverts(c % 16);
    case 7 => Antilog7Inverts(c % 16);
    case 8 => Antilog8Inverts(c % 16);
    case 9 => Antilog9Inverts(c % 16);
    case 10 => Antilog10Inverts(c % 16);
    case 11 => Antilog11Inverts(c % 16);
    case 12 => Antilog12Inverts(c % 16);
    case 13 => Antilog13Inverts(c % 16);
    case 14 => Antilog14Inverts(c % 16);
    case _ => Antilog15Inverts(c % 16);
  }

  /** Two to the 255 is one. */
  lemma Period(a: Element)
    ensures Scale(255, a) == a
  {
    hide GaloisLog, GaloisAntilog, Scale;
    if a == 0 {
      ScaleZero(255);
    } else {
      var j := GaloisAntilog(a);
      AntilogInverts(a);
      LogIsPower(j);
      LogIsPower(255);
      LogEnds();
      ScaleScale(255, j, 1);
      ScaleScale(j, 255, 1);
    }
  }

  /** Where the encoder looks up a product: the sum of the exponents, reduced. */
  function SumIndex(a: nat, g: nat): nat {
    if a + g > 255 then (a + g) % 255 else a + g
  }

  /** The product through the tables is the product in the field. */
  lemma TableProduct(c: Element, g: nat)
    requires c != 0 && g < 256
    ensures SumIndex(GaloisAntilog(c), g) < 256 && GaloisLog(SumIndex(GaloisAntilog(c), g)) == Scale(g, c)
  {
    hide GaloisLog, GaloisAntilog, Scale;
    var a := GaloisAntilog(c);
    AntilogInverts(c);
    LogIsPower(a);
    ScaleScale(g, a, 1);
    var i := SumIndex(a, g);
    LogIsPower(i);
    if a + g > 255 {
      assert i == a + g - 255;
      ScaleScale(255, i, 1);
      Period(Scale(i, 1));
    }
  }
}
