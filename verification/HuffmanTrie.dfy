/** The trie in the decoder's table, place by place.  State `i` of the decoder is at the even
    position `2 * i`. */
module HuffmanTrie {
  import opened HuffmanTables

  /** The bits that lead from the start to state `i`, as a number. */
  function PathCode(i: nat): nat {
    if i < 128 then PathCodeA(i)
    else PathCodeB(i)
  }

  function PathCodeA(i: nat): nat {
    if i < 8 then match i { case 0 => 0 case 1 => 1 case 2 => 3 case 3 => 7 case 4 => 0xf case 5 => 0x1f case 6 => 0x3f case _ => 0x7f }
    else if i < 16 then match i { case 8 => 0xff case 9 => 0x1ff case 10 => 0x3ff case 11 => 0x7fe case 12 => 0xffc case 13 => 0x7ff case 14 => 0xfff case _ => 0x1fff }
    else if i < 24 then match i { case 16 => 0x3fff case 17 => 0x7fff case 18 => 0xffff case 19 => 0x1ffff case 20 => 0x3fffe case 21 => 0x7fffd case 22 => 0xffffb case _ => 0x1ffff6 }
    else if i < 32 then match i { case 24 => 0x3fffec case 25 => 0x3ffff case 26 => 0x7ffff case 27 => 0xfffff case 28 => 0x1fffff case 29 => 0x3fffff case 30 => 0x7fffff case _ => 0xfffffe }
    else if i < 40 then match i { case 32 => 0x1fffffc case 33 => 0x3fffff8 case 34 => 0x7fffff1 case 35 => 0x3fffff9 case 36 => 0x7fffff2 case 37 => 0x7fffff3 case 38 => 0x1fffffd case _ => 0x3fffffa }
    else if i < 48 then match i { case 40 => 0x7fffff4 case 41 => 0xffffe case 42 => 0x1ffffd case 43 => 0x3ffffa case 44 => 0x7ffff5 case 45 => 0xffffff case 46 => 0x1ffffff case _ => 0x3ffffff }
    else if i < 56 then match i { case 48 => 0x7ffffff case 49 => 0xfffffff case 50 => 0x1ffffffe case 51 => 0x7fffff5 case 52 => 0x3fffffb case 53 => 0x7fffff6 case 54 => 0x7fffff7 case _ => 0x1fffffe }
    else if i < 64 then match i { case 56 => 0x3fffffc case 57 => 0x7fffff8 case 58 => 0x7fffff9 case 59 => 0x1fffffff case 60 => 0x3fffffd case 61 => 0x7fffffa case 62 => 0x7fffffb case _ => 0x3fffffe }
    else if i < 72 then match i { case 64 => 0x7fffffc case 65 => 0x7fffffd case 66 => 0 case 67 => 1 case 68 => 2 case 69 => 5 case 70 => 0xa case _ => 0xfe }
    else if i < 80 then match i { case 72 => 0x1fc case 73 => 0x3fe case 74 => 0x7fd case 75 => 0x3e case 76 => 0x7c case 77 => 0x1fe case 78 => 0x3fd case _ => 0x1fd }
    else if i < 88 then match i { case 80 => 0x7d case 81 => 0xb case 82 => 3 case 83 => 6 case 84 => 0xc case 85 => 0 case 86 => 0 case _ => 0 }
    else if i < 96 then match i { case 88 => 1 case 89 => 0xd case 90 => 7 case 91 => 0xe case 92 => 0xf case 93 => 2 case 94 => 5 case _ => 0xb }
    else if i < 104 then match i { case 96 => 0x17 case 97 => 0x2e case 98 => 0x3ffe case 99 => 4 case 100 => 8 case 101 => 0x10 case 102 => 0xffd case _ => 0x2f }
    else if i < 112 then match i { case 104 => 6 case 105 => 0xc case 106 => 0x18 case 107 => 0x30 case 108 => 0x31 case 109 => 0x19 case 110 => 0x32 case _ => 0x33 }
    else if i < 120 then match i { case 112 => 0xd case 113 => 0x1a case 114 => 0x34 case 115 => 0x35 case 116 => 0x1b case 117 => 0x36 case 118 => 0x37 case _ => 0xe }
    else match i { case 120 => 0x1c case 121 => 0x38 case 122 => 0x39 case 123 => 0x7e case 124 => 0xfffe case 125 => 0x1fffc case 126 => 0x3fff8 case _ => 0xffe }
  }

  function PathCodeB(i: nat): nat {
    if i < 136 then match i { case 128 => 0x1ffe case 129 => 0x11 case 130 => 1 case 131 => 2 case 132 => 9 case 133 => 0x12 case 134 => 0x13 case _ => 3 }
    else if i < 144 then match i { case 136 => 0x1d case 137 => 0x3a case 138 => 0xa case 139 => 0x14 case 140 => 0x15 case 141 => 0x3b case 142 => 0x16 case _ => 4 }
    else if i < 152 then match i { case 144 => 0x1e case 145 => 0x3c case 146 => 0x3d case 147 => 0x7fffffe case 148 => 0x3fff9 case 149 => 0x7fff3 case 150 => 0x1fffe case _ => 0x3fffd }
    else if i < 160 then match i { case 152 => 0x7fffa case 153 => 0xffff4 case 154 => 0x1fffe9 case 155 => 0x1fffd case 156 => 0x3fffa case 157 => 0x7fff4 case 158 => 0xffff5 case _ => 0x1fffea }
    else if i < 168 then match i { case 160 => 0x1fffeb case 161 => 0x3fffed case 162 => 0x1ffff7 case 163 => 0x3fffee case 164 => 0x3fffef case 165 => 0x3ffffb case 166 => 0x7ffff6 case _ => 0x7fffe }
    else if i < 176 then match i { case 168 => 0xffffc case 169 => 0x1ffff8 case 170 => 0x3ffff0 case 171 => 0x7ffff7 case 172 => 0x3ffff1 case 173 => 0x1ffff9 case 174 => 0x3ffff2 case _ => 0x3fffb }
    else if i < 184 then match i { case 176 => 0x7fff7 case 177 => 0xfffee case 178 => 0x7fffb case 179 => 0xffff6 case 180 => 0x1fffec case 181 => 0x3ffff3 case 182 => 0x1fffed case _ => 0xffff7 }
    else if i < 192 then match i { case 184 => 0x1fffee case 185 => 0xffffd case 186 => 0x1ffffa case 187 => 0x3ffff4 case 188 => 0xfffef case 189 => 0x3ffff5 case 190 => 0x1fffef case _ => 0x1ffffe }
    else if i < 200 then match i { case 192 => 0x3ffffc case 193 => 0x7ffff8 case 194 => 0x1ffffb case 195 => 0x3ffff6 case 196 => 0x3fffc case 197 => 0x7fff8 case 198 => 0xffff0 case _ => 0x7fffc }
    else if i < 208 then match i { case 200 => 0xffff8 case 201 => 0x1ffff0 case 202 => 0xffff1 case 203 => 0x3ffff7 case 204 => 0x7fff5 case 205 => 0x1ffff1 case 206 => 0xffff9 case _ => 0x1ffff2 }
    else if i < 216 then match i { case 208 => 0x1ffffc case 209 => 0x3ffff8 case 210 => 0x1ffff3 case 211 => 0x3ffffe case 212 => 0x7ffffc case 213 => 0xfffff8 case 214 => 0x1fffff0 case _ => 0x3ffff9 }
    else if i < 224 then match i { case 216 => 0xffffa case 217 => 0x1ffff4 case 218 => 0x3ffffd case 219 => 0x7ffffb case 220 => 0xfffff6 case 221 => 0x1fffff1 case 222 => 0xfffff9 case _ => 0x1fffff2 }
    else if i < 232 then match i { case 224 => 0x7ffffd case 225 => 0xfffffb case 226 => 0x1fffff7 case 227 => 0x3ffffef case 228 => 0x1fffff3 case 229 => 0x7ffffe case 230 => 0xfffffc case _ => 0x1fffff8 }
    else if i < 240 then match i { case 232 => 0x3fffff0 case 233 => 0x3fffff1 case 234 => 0x7ffff9 case 235 => 0x7fff9 case 236 => 0xffff2 case 237 => 0xfffffa case 238 => 0x1fffff4 case _ => 0x1fffff9 }
    else if i < 248 then match i { case 240 => 0x3fffff2 case 241 => 0x7fff6 case 242 => 0xffff3 case 243 => 0x1ffff5 case 244 => 0xfffff7 case 245 => 0x7ffffa case 246 => 0x1fffff5 case _ => 0x3fffff3 }
    else match i { case 248 => 0x1fffff6 case 249 => 0xfffffd case 250 => 0x1fffffa case 251 => 0x3fffff4 case 252 => 0x3fffff5 case 253 => 0x1fffffb case 254 => 0x3fffff6 case _ => 0x3fffff7 }
  }

  /** How many bits these are. */
  function PathLength(i: nat): nat {
    if i < 128 then PathLengthA(i)
    else PathLengthB(i)
  }

  function PathLengthA(i: nat): nat {
    if i < 8 then match i { case 0 => 0 case 1 => 1 case 2 => 2 case 3 => 3 case 4 => 4 case 5 => 5 case 6 => 6 case _ => 7 }
    else if i < 16 then match i { case 8 => 8 case 9 => 9 case 10 => 10 case 11 => 11 case 12 => 12 case 13 => 11 case 14 => 12 case _ => 13 }
    else if i < 24 then match i { case 16 => 14 case 17 => 15 case 18 => 16 case 19 => 17 case 20 => 18 case 21 => 19 case 22 => 20 case _ => 21 }
    else if i < 32 then match i { case 24 => 22 case 25 => 18 case 26 => 19 case 27 => 20 case 28 => 21 case 29 => 22 case 30 => 23 case _ => 24 }
    else if i < 40 then match i { case 32 => 25 case 33 => 26 case 34 => 27 case 35 => 26 case 36 => 27 case 37 => 27 case 38 => 25 case _ => 26 }
    else if i < 48 then match i { case 40 => 27 case 41 => 20 case 42 => 21 case 43 => 22 case 44 => 23 case 45 => 24 case 46 => 25 case _ => 26 }
    else if i < 56 then match i { case 48 => 27 case 49 => 28 case 50 => 29 case 51 => 27 case 52 => 26 case 53 => 27 case 54 => 27 case _ => 25 }
    else if i < 64 then match i { case 56 => 26 case 57 => 27 case 58 => 27 case 59 => 29 case 60 => 26 case 61 => 27 case 62 => 27 case _ => 26 }
    else if i < 72 then match i { case 64 => 27 case 65 => 27 case 66 => 1 case 67 => 2 case 68 => 3 case 69 => 4 case 70 => 5 case _ => 8 }
    else if i < 80 then match i { case 72 => 9 case 73 => 10 case 74 => 11 case 75 => 6 case 76 => 7 case 77 => 9 case 78 => 10 case _ => 9 }
    else if i < 88 then match i { case 80 => 7 case 81 => 5 case 82 => 3 case 83 => 4 case 84 => 5 case 85 => 2 case 86 => 3 case _ => 4 }
    else if i < 96 then match i { case 88 => 4 case 89 => 5 case 90 => 4 case 91 => 5 case 92 => 5 case 93 => 2 case 94 => 3 case _ => 4 }
    else if i < 104 then match i { case 96 => 5 case 97 => 6 case 98 => 14 case 99 => 3 case 100 => 4 case 101 => 5 case 102 => 12 case _ => 6 }
    else if i < 112 then match i { case 104 => 3 case 105 => 4 case 106 => 5 case 107 => 6 case 108 => 6 case 109 => 5 case 110 => 6 case _ => 6 }
    else if i < 120 then match i { case 112 => 4 case 113 => 5 case 114 => 6 case 115 => 6 case 116 => 5 case 117 => 6 case 118 => 6 case _ => 4 }
    else match i { case 120 => 5 case 121 => 6 case 122 => 6 case 123 => 7 case 124 => 16 case 125 => 17 case 126 => 18 case _ => 12 }
  }

  function PathLengthB(i: nat): nat {
    if i < 136 then match i { case 128 => 13 case 129 => 5 case 130 => 3 case 131 => 4 case 132 => 4 case 133 => 5 case 134 => 5 case _ => 4 }
    else if i < 144 then match i { case 136 => 5 case 137 => 6 case 138 => 4 case 139 => 5 case 140 => 5 case 141 => 6 case 142 => 5 case _ => 4 }
    else if i < 152 then match i { case 144 => 5 case 145 => 6 case 146 => 6 case 147 => 27 case 148 => 18 case 149 => 19 case 150 => 17 case _ => 18 }
    else if i < 160 then match i { case 152 => 19 case 153 => 20 case 154 => 21 case 155 => 17 case 156 => 18 case 157 => 19 case 158 => 20 case _ => 21 }
    else if i < 168 then match i { case 160 => 21 case 161 => 22 case 162 => 21 case 163 => 22 case 164 => 22 case 165 => 22 case 166 => 23 case _ => 19 }
    else if i < 176 then match i { case 168 => 20 case 169 => 21 case 170 => 22 case 171 => 23 case 172 => 22 case 173 => 21 case 174 => 22 case _ => 18 }
    else if i < 184 then match i { case 176 => 19 case 177 => 20 case 178 => 19 case 179 => 20 case 180 => 21 case 181 => 22 case 182 => 21 case _ => 20 }
    else if i < 192 then match i { case 184 => 21 case 185 => 20 case 186 => 21 case 187 => 22 case 188 => 20 case 189 => 22 case 190 => 21 case _ => 21 }
    else if i < 200 then match i { case 192 => 22 case 193 => 23 case 194 => 21 case 195 => 22 case 196 => 18 case 197 => 19 case 198 => 20 case _ => 19 }
    else if i < 208 then match i { case 200 => 20 case 201 => 21 case 202 => 20 case 203 => 22 case 204 => 19 case 205 => 21 case 206 => 20 case _ => 21 }
    else if i < 216 then match i { case 208 => 21 case 209 => 22 case 210 => 21 case 211 => 22 case 212 => 23 case 213 => 24 case 214 => 25 case _ => 22 }
    else if i < 224 then match i { case 216 => 20 case 217 => 21 case 218 => 22 case 219 => 23 case 220 => 24 case 221 => 25 case 222 => 24 case _ => 25 }
    else if i < 232 then match i { case 224 => 23 case 225 => 24 case 226 => 25 case 227 => 26 case 228 => 25 case 229 => 23 case 230 => 24 case _ => 25 }
    else if i < 240 then match i { case 232 => 26 case 233 => 26 case 234 => 23 case 235 => 19 case 236 => 20 case 237 => 24 case 238 => 25 case _ => 25 }
    else if i < 248 then match i { case 240 => 26 case 241 => 19 case 242 => 20 case 243 => 21 case 244 => 24 case 245 => 23 case 246 => 25 case _ => 26 }
    else match i { case 248 => 25 case 249 => 24 case 250 => 25 case 251 => 26 case 252 => 26 case 253 => 25 case 254 => 26 case _ => 26 }
  }

  function Bit(x: nat, k: nat): nat {
    if k < 4 then
      if k < 2 then if k < 1 then x % 2 else x / 2 % 2 else if k < 3 then x / 4 % 2 else x / 8 % 2
    else
      if k < 6 then if k < 5 then x / 16 % 2 else x / 32 % 2 else if k < 7 then x / 64 % 2 else x / 128 % 2
  }

  predicate Terminal(q: nat) { Bit(LextableTerms(q / 8), q % 8) == 1 }

  /** State `i` is reached from the earlier state `p` over the bit `b`, the last of its path. */
  predicate Node(i: nat, p: nat, b: nat) {
    && p < i && b < 2 && !Terminal(2 * p + b) && p + Lextable(2 * p + b) == i
    && PathCode(i) == 2 * PathCode(p) + b && PathLength(i) == PathLength(p) + 1
  }

  /** The code of symbol `s` leads to state `p` and, over the bit `b`, to a place that holds it. */
  predicate Symbol(s: nat, p: nat, b: nat) {
    && p < 256 && b < 2 && Terminal(2 * p + b) && Lextable(2 * p + b) == s % 256
    && Code(s) == 2 * PathCode(p) + b && Length(s) == PathLength(p) + 1
  }

  ghost predicate HasParent(i: nat) { exists p, b :: Node(i, p, b) }

  ghost predicate HasPlace(s: nat) { exists p, b :: Symbol(s, p, b) }

  /** No place leads outside the table. */
  predicate Inside(q: nat) { Terminal(q) || q / 2 + Lextable(q) < 256 }

  predicate Bounded(i: nat) { Inside(2 * i) && Inside(2 * i + 1) }

  lemma Nodes0(i: nat)
    requires 1 <= i < 13
    ensures HasParent(i)
  {
    match i {
      case 1 => assert Node(1, 0, 1);
      case 2 => assert Node(2, 1, 1);
      case 3 => assert Node(3, 2, 1);
      case 4 => assert Node(4, 3, 1);
      case 5 => assert Node(5, 4, 1);
      case 6 => assert Node(6, 5, 1);
      case 7 => assert Node(7, 6, 1);
      case 8 => assert Node(8, 7, 1);
      case 9 => assert Node(9, 8, 1);
      case 10 => assert Node(10, 9, 1);
      case 11 => assert Node(11, 10, 0);
      case _ => assert Node(12, 11, 0);
    }
  }

  lemma Nodes1(i: nat)
    requires 13 <= i < 25
    ensures HasParent(i)
  {
    match i {
      case 13 => assert Node(13, 10, 1);
      case 14 => assert Node(14, 13, 1);
      case 15 => assert Node(15, 14, 1);
      case 16 => assert Node(16, 15, 1);
      case 17 => assert Node(17, 16, 1);
      case 18 => assert Node(18, 17, 1);
      case 19 => assert Node(19, 18, 1);
      case 20 => assert Node(20, 19, 0);
      case 21 => assert Node(21, 20, 1);
      case 22 => assert Node(22, 21, 1);
      case 23 => assert Node(23, 22, 0);
      case _ => assert Node(24, 23, 0);
    }
  }

  lemma Nodes2(i: nat)
    requires 25 <= i < 37
    ensures HasParent(i)
  {
    match i {
      case 25 => assert Node(25, 19, 1);
      case 26 => assert Node(26, 25, 1);
      case 27 => assert Node(27, 26, 1);
      case 28 => assert Node(28, 27, 1);
      case 29 => assert Node(29, 28, 1);
      case 30 => assert Node(30, 29, 1);
      case 31 => assert Node(31, 30, 0);
      case 32 => assert Node(32, 31, 0);
      case 33 => assert Node(33, 32, 0);
      case 34 => assert Node(34, 33, 1);
      case 35 => assert Node(35, 32, 1);
      case _ => assert Node(36, 35, 0);
    }
  }

  lemma Nodes3(i: nat)
    requires 37 <= i < 49
    ensures HasParent(i)
  {
    match i {
      case 37 => assert Node(37, 35, 1);
      case 38 => assert Node(38, 31, 1);
      case 39 => assert Node(39, 38, 0);
      case 40 => assert Node(40, 39, 0);
      case 41 => assert Node(41, 26, 0);
      case 42 => assert Node(42, 41, 1);
      case 43 => assert Node(43, 42, 0);
      case 44 => assert Node(44, 43, 1);
      case 45 => assert Node(45, 30, 1);
      case 46 => assert Node(46, 45, 1);
      case 47 => assert Node(47, 46, 1);
      case _ => assert Node(48, 47, 1);
    }
  }

  lemma Nodes4(i: nat)
    requires 49 <= i < 61
    ensures HasParent(i)
  {
    match i {
      case 49 => assert Node(49, 48, 1);
      case 50 => assert Node(50, 49, 0);
      case 51 => assert Node(51, 39, 1);
      case 52 => assert Node(52, 38, 1);
      case 53 => assert Node(53, 52, 0);
      case 54 => assert Node(54, 52, 1);
      case 55 => assert Node(55, 45, 0);
      case 56 => assert Node(56, 55, 0);
      case 57 => assert Node(57, 56, 0);
      case 58 => assert Node(58, 56, 1);
      case 59 => assert Node(59, 49, 1);
      case _ => assert Node(60, 55, 1);
    }
  }

  lemma Nodes5(i: nat)
    requires 61 <= i < 73
    ensures HasParent(i)
  {
    match i {
      case 61 => assert Node(61, 60, 0);
      case 62 => assert Node(62, 60, 1);
      case 63 => assert Node(63, 46, 0);
      case 64 => assert Node(64, 63, 0);
      case 65 => assert Node(65, 63, 1);
      case 66 => assert Node(66, 0, 0);
      case 67 => assert Node(67, 66, 1);
      case 68 => assert Node(68, 67, 0);
      case 69 => assert Node(69, 68, 1);
      case 70 => assert Node(70, 69, 0);
      case 71 => assert Node(71, 7, 0);
      case _ => assert Node(72, 71, 0);
    }
  }

  lemma Nodes6(i: nat)
    requires 73 <= i < 85
    ensures HasParent(i)
  {
    match i {
      case 73 => assert Node(73, 9, 0);
      case 74 => assert Node(74, 73, 1);
      case 75 => assert Node(75, 5, 0);
      case 76 => assert Node(76, 75, 0);
      case 77 => assert Node(77, 8, 0);
      case 78 => assert Node(78, 77, 1);
      case 79 => assert Node(79, 71, 1);
      case 80 => assert Node(80, 75, 1);
      case 81 => assert Node(81, 69, 1);
      case 82 => assert Node(82, 67, 1);
      case 83 => assert Node(83, 82, 0);
      case _ => assert Node(84, 83, 0);
    }
  }

  lemma Nodes7(i: nat)
    requires 85 <= i < 97
    ensures HasParent(i)
  {
    match i {
      case 85 => assert Node(85, 66, 0);
      case 86 => assert Node(86, 85, 0);
      case 87 => assert Node(87, 86, 0);
      case 88 => assert Node(88, 86, 1);
      case 89 => assert Node(89, 83, 1);
      case 90 => assert Node(90, 82, 1);
      case 91 => assert Node(91, 90, 0);
      case 92 => assert Node(92, 90, 1);
      case 93 => assert Node(93, 1, 0);
      case 94 => assert Node(94, 93, 1);
      case 95 => assert Node(95, 94, 1);
      case _ => assert Node(96, 95, 1);
    }
  }

  lemma Nodes8(i: nat)
    requires 97 <= i < 109
    ensures HasParent(i)
  {
    match i {
      case 97 => assert Node(97, 96, 0);
      case 98 => assert Node(98, 15, 0);
      case 99 => assert Node(99, 93, 0);
      case 100 => assert Node(100, 99, 0);
      case 101 => assert Node(101, 100, 0);
      case 102 => assert Node(102, 11, 1);
      case 103 => assert Node(103, 96, 1);
      case 104 => assert Node(104, 2, 0);
      case 105 => assert Node(105, 104, 0);
      case 106 => assert Node(106, 105, 0);
      case 107 => assert Node(107, 106, 0);
      case _ => assert Node(108, 106, 1);
    }
  }

  lemma Nodes9(i: nat)
    requires 109 <= i < 121
    ensures HasParent(i)
  {
    match i {
      case 109 => assert Node(109, 105, 1);
      case 110 => assert Node(110, 109, 0);
      case 111 => assert Node(111, 109, 1);
      case 112 => assert Node(112, 104, 1);
      case 113 => assert Node(113, 112, 0);
      case 114 => assert Node(114, 113, 0);
      case 115 => assert Node(115, 113, 1);
      case 116 => assert Node(116, 112, 1);
      case 117 => assert Node(117, 116, 0);
      case 118 => assert Node(118, 116, 1);
      case 119 => assert Node(119, 3, 0);
      case _ => assert Node(120, 119, 0);
    }
  }

  lemma Nodes10(i: nat)
    requires 121 <= i < 133
    ensures HasParent(i)
  {
    match i {
      case 121 => assert Node(121, 120, 0);
      case 122 => assert Node(122, 120, 1);
      case 123 => assert Node(123, 6, 0);
      case 124 => assert Node(124, 17, 0);
      case 125 => assert Node(125, 124, 0);
      case 126 => assert Node(126, 125, 0);
      case 127 => assert Node(127, 13, 0);
      case 128 => assert Node(128, 14, 0);
      case 129 => assert Node(129, 100, 1);
      case 130 => assert Node(130, 85, 1);
      case 131 => assert Node(131, 130, 0);
      case _ => assert Node(132, 99, 1);
    }
  }

  lemma Nodes11(i: nat)
    requires 133 <= i < 145
    ensures HasParent(i)
  {
    match i {
      case 133 => assert Node(133, 132, 0);
      case 134 => assert Node(134, 132, 1);
      case 135 => assert Node(135, 130, 1);
      case 136 => assert Node(136, 119, 1);
      case 137 => assert Node(137, 136, 0);
      case 138 => assert Node(138, 94, 0);
      case 139 => assert Node(139, 138, 0);
      case 140 => assert Node(140, 138, 1);
      case 141 => assert Node(141, 136, 1);
      case 142 => assert Node(142, 95, 0);
      case 143 => assert Node(143, 68, 0);
      case _ => assert Node(144, 4, 0);
    }
  }

  lemma Nodes12(i: nat)
    requires 145 <= i < 157
    ensures HasParent(i)
  {
    match i {
      case 145 => assert Node(145, 144, 0);
      case 146 => assert Node(146, 144, 1);
      case 147 => assert Node(147, 47, 0);
      case 148 => assert Node(148, 125, 1);
      case 149 => assert Node(149, 148, 1);
      case 150 => assert Node(150, 18, 0);
      case 151 => assert Node(151, 150, 1);
      case 152 => assert Node(152, 151, 0);
      case 153 => assert Node(153, 152, 0);
      case 154 => assert Node(154, 153, 1);
      case 155 => assert Node(155, 124, 1);
      case _ => assert Node(156, 155, 0);
    }
  }

  lemma Nodes13(i: nat)
    requires 157 <= i < 169
    ensures HasParent(i)
  {
    match i {
      case 157 => assert Node(157, 156, 0);
      case 158 => assert Node(158, 152, 1);
      case 159 => assert Node(159, 158, 0);
      case 160 => assert Node(160, 158, 1);
      case 161 => assert Node(161, 23, 1);
      case 162 => assert Node(162, 22, 1);
      case 163 => assert Node(163, 162, 0);
      case 164 => assert Node(164, 162, 1);
      case 165 => assert Node(165, 42, 1);
      case 166 => assert Node(166, 165, 0);
      case 167 => assert Node(167, 25, 0);
      case _ => assert Node(168, 167, 0);
    }
  }

  lemma Nodes14(i: nat)
    requires 169 <= i < 181
    ensures HasParent(i)
  {
    match i {
      case 169 => assert Node(169, 168, 0);
      case 170 => assert Node(170, 169, 0);
      case 171 => assert Node(171, 165, 1);
      case 172 => assert Node(172, 169, 1);
      case 173 => assert Node(173, 168, 1);
      case 174 => assert Node(174, 173, 0);
      case 175 => assert Node(175, 155, 1);
      case 176 => assert Node(176, 175, 1);
      case 177 => assert Node(177, 176, 0);
      case 178 => assert Node(178, 151, 1);
      case 179 => assert Node(179, 178, 0);
      case _ => assert Node(180, 179, 0);
    }
  }

  lemma Nodes15(i: nat)
    requires 181 <= i < 193
    ensures HasParent(i)
  {
    match i {
      case 181 => assert Node(181, 173, 1);
      case 182 => assert Node(182, 179, 1);
      case 183 => assert Node(183, 178, 1);
      case 184 => assert Node(184, 183, 0);
      case 185 => assert Node(185, 167, 1);
      case 186 => assert Node(186, 185, 0);
      case 187 => assert Node(187, 186, 0);
      case 188 => assert Node(188, 176, 1);
      case 189 => assert Node(189, 186, 1);
      case 190 => assert Node(190, 183, 1);
      case 191 => assert Node(191, 27, 0);
      case _ => assert Node(192, 191, 0);
    }
  }

  lemma Nodes16(i: nat)
    requires 193 <= i < 205
    ensures HasParent(i)
  {
    match i {
      case 193 => assert Node(193, 192, 0);
      case 194 => assert Node(194, 185, 1);
      case 195 => assert Node(195, 194, 0);
      case 196 => assert Node(196, 150, 0);
      case 197 => assert Node(197, 196, 0);
      case 198 => assert Node(198, 197, 0);
      case 199 => assert Node(199, 20, 0);
      case 200 => assert Node(200, 199, 0);
      case 201 => assert Node(201, 200, 0);
      case 202 => assert Node(202, 197, 1);
      case 203 => assert Node(203, 194, 1);
      case _ => assert Node(204, 156, 1);
    }
  }

  lemma Nodes17(i: nat)
    requires 205 <= i < 217
    ensures HasParent(i)
  {
    match i {
      case 205 => assert Node(205, 200, 1);
      case 206 => assert Node(206, 199, 1);
      case 207 => assert Node(207, 206, 0);
      case 208 => assert Node(208, 41, 0);
      case 209 => assert Node(209, 208, 0);
      case 210 => assert Node(210, 206, 1);
      case 211 => assert Node(211, 28, 0);
      case 212 => assert Node(212, 211, 0);
      case 213 => assert Node(213, 212, 0);
      case 214 => assert Node(214, 213, 0);
      case 215 => assert Node(215, 208, 1);
      case _ => assert Node(216, 21, 0);
    }
  }

  lemma Nodes18(i: nat)
    requires 217 <= i < 229
    ensures HasParent(i)
  {
    match i {
      case 217 => assert Node(217, 216, 0);
      case 218 => assert Node(218, 191, 1);
      case 219 => assert Node(219, 218, 1);
      case 220 => assert Node(220, 219, 0);
      case 221 => assert Node(221, 213, 1);
      case 222 => assert Node(222, 212, 1);
      case 223 => assert Node(223, 222, 0);
      case 224 => assert Node(224, 211, 1);
      case 225 => assert Node(225, 224, 1);
      case 226 => assert Node(226, 225, 1);
      case 227 => assert Node(227, 226, 1);
      case _ => assert Node(228, 222, 1);
    }
  }

  lemma Nodes19(i: nat)
    requires 229 <= i < 241
    ensures HasParent(i)
  {
    match i {
      case 229 => assert Node(229, 29, 0);
      case 230 => assert Node(230, 229, 0);
      case 231 => assert Node(231, 230, 0);
      case 232 => assert Node(232, 231, 0);
      case 233 => assert Node(233, 231, 1);
      case 234 => assert Node(234, 192, 1);
      case 235 => assert Node(235, 196, 1);
      case 236 => assert Node(236, 235, 0);
      case 237 => assert Node(237, 224, 0);
      case 238 => assert Node(238, 237, 0);
      case 239 => assert Node(239, 230, 1);
      case _ => assert Node(240, 239, 0);
    }
  }

  lemma Nodes20(i: nat)
    requires 241 <= i < 253
    ensures HasParent(i)
  {
    match i {
      case 241 => assert Node(241, 175, 0);
      case 242 => assert Node(242, 235, 1);
      case 243 => assert Node(243, 216, 1);
      case 244 => assert Node(244, 219, 1);
      case 245 => assert Node(245, 218, 0);
      case 246 => assert Node(246, 237, 1);
      case 247 => assert Node(247, 239, 1);
      case 248 => assert Node(248, 225, 0);
      case 249 => assert Node(249, 229, 1);
      case 250 => assert Node(250, 249, 0);
      case 251 => assert Node(251, 250, 0);
      case _ => assert Node(252, 250, 1);
    }
  }

  lemma Nodes21(i: nat)
    requires 253 <= i < 256
    ensures HasParent(i)
  {
    match i {
      case 253 => assert Node(253, 249, 1);
      case 254 => assert Node(254, 253, 0);
      case _ => assert Node(255, 253, 1);
    }
  }

  lemma AllNodes(i: nat)
    requires 0 < i < 256
    ensures HasParent(i)
  {
    hide *;
    if i < 13 { Nodes0(i); }
    else if i < 25 { Nodes1(i); }
    else if i < 37 { Nodes2(i); }
    else if i < 49 { Nodes3(i); }
    else if i < 61 { Nodes4(i); }
    else if i < 73 { Nodes5(i); }
    else if i < 85 { Nodes6(i); }
    else if i < 97 { Nodes7(i); }
    else if i < 109 { Nodes8(i); }
    else if i < 121 { Nodes9(i); }
    else if i < 133 { Nodes10(i); }
    else if i < 145 { Nodes11(i); }
    else if i < 157 { Nodes12(i); }
    else if i < 169 { Nodes13(i); }
    else if i < 181 { Nodes14(i); }
    else if i < 193 { Nodes15(i); }
    else if i < 205 { Nodes16(i); }
    else if i < 217 { Nodes17(i); }
    else if i < 229 { Nodes18(i); }
    else if i < 241 { Nodes19(i); }
    else if i < 253 { Nodes20(i); }
    else { Nodes21(i); }
  }

  lemma Places0(i: nat)
    requires 0 <= i < 8
    ensures Bounded(i)
  {
    match i {
      case 0 => assert Lextable(0) == 66 && Lextable(1) == 1;
      case 1 => assert Lextable(2) == 92 && Lextable(3) == 1;
      case 2 => assert Lextable(4) == 102 && Lextable(5) == 1;
      case 3 => assert Lextable(6) == 116 && Lextable(7) == 1;
      case 4 => assert Lextable(8) == 140 && Lextable(9) == 1;
      case 5 => assert Lextable(10) == 70 && Lextable(11) == 1;
      case 6 => assert Lextable(12) == 117 && Lextable(13) == 1;
      case _ => assert Lextable(14) == 64 && Lextable(15) == 1;
    }
  }

  lemma Places1(i: nat)
    requires 8 <= i < 16
    ensures Bounded(i)
  {
    match i {
      case 8 => assert Lextable(16) == 69 && Lextable(17) == 1;
      case 9 => assert Lextable(18) == 64 && Lextable(19) == 1;
      case 10 => assert Lextable(20) == 1 && Lextable(21) == 3;
      case 11 => assert Lextable(22) == 1 && Lextable(23) == 91;
      case 12 => assert Terminal(24) && Terminal(25);
      case 13 => assert Lextable(26) == 114 && Lextable(27) == 1;
      case 14 => assert Lextable(28) == 114 && Lextable(29) == 1;
      case _ => assert Lextable(30) == 83 && Lextable(31) == 1;
    }
  }

  lemma Places2(i: nat)
    requires 16 <= i < 24
    ensures Bounded(i)
  {
    match i {
      case 16 => assert Terminal(32) && Lextable(33) == 1;
      case 17 => assert Lextable(34) == 107 && Lextable(35) == 1;
      case 18 => assert Lextable(36) == 132 && Lextable(37) == 1;
      case 19 => assert Lextable(38) == 1 && Lextable(39) == 6;
      case 20 => assert Lextable(40) == 179 && Lextable(41) == 1;
      case 21 => assert Lextable(42) == 195 && Lextable(43) == 1;
      case 22 => assert Lextable(44) == 1 && Lextable(45) == 140;
      case _ => assert Lextable(46) == 1 && Lextable(47) == 138;
    }
  }

  lemma Places3(i: nat)
    requires 24 <= i < 32
    ensures Bounded(i)
  {
    match i {
      case 24 => assert Terminal(48) && Terminal(49);
      case 25 => assert Lextable(50) == 142 && Lextable(51) == 1;
      case 26 => assert Lextable(52) == 15 && Lextable(53) == 1;
      case 27 => assert Lextable(54) == 164 && Lextable(55) == 1;
      case 28 => assert Lextable(56) == 183 && Lextable(57) == 1;
      case 29 => assert Lextable(58) == 200 && Lextable(59) == 1;
      case 30 => assert Lextable(60) == 1 && Lextable(61) == 15;
      case _ => assert Lextable(62) == 1 && Lextable(63) == 7;
    }
  }

  lemma Places4(i: nat)
    requires 32 <= i < 40
    ensures Bounded(i)
  {
    match i {
      case 32 => assert Lextable(64) == 1 && Lextable(65) == 3;
      case 33 => assert Terminal(66) && Lextable(67) == 1;
      case 34 => assert Terminal(68) && Terminal(69);
      case 35 => assert Lextable(70) == 1 && Lextable(71) == 2;
      case 36 => assert Terminal(72) && Terminal(73);
      case 37 => assert Terminal(74) && Terminal(75);
      case 38 => assert Lextable(76) == 1 && Lextable(77) == 14;
      case _ => assert Lextable(78) == 1 && Lextable(79) == 12;
    }
  }

  lemma Places5(i: nat)
    requires 40 <= i < 48
    ensures Bounded(i)
  {
    match i {
      case 40 => assert Terminal(80) && Terminal(81);
      case 41 => assert Lextable(82) == 167 && Lextable(83) == 1;
      case 42 => assert Lextable(84) == 1 && Lextable(85) == 123;
      case 43 => assert Terminal(86) && Lextable(87) == 1;
      case 44 => assert Terminal(88) && Terminal(89);
      case 45 => assert Lextable(90) == 10 && Lextable(91) == 1;
      case 46 => assert Lextable(92) == 17 && Lextable(93) == 1;
      case _ => assert Lextable(94) == 100 && Lextable(95) == 1;
    }
  }

  lemma Places6(i: nat)
    requires 48 <= i < 56
    ensures Bounded(i)
  {
    match i {
      case 48 => assert Terminal(96) && Lextable(97) == 1;
      case 49 => assert Lextable(98) == 1 && Lextable(99) == 10;
      case 50 => assert Terminal(100) && Terminal(101);
      case 51 => assert Terminal(102) && Terminal(103);
      case 52 => assert Lextable(104) == 1 && Lextable(105) == 2;
      case 53 => assert Terminal(106) && Terminal(107);
      case 54 => assert Terminal(108) && Terminal(109);
      case _ => assert Lextable(110) == 1 && Lextable(111) == 5;
    }
  }

  lemma Places7(i: nat)
    requires 56 <= i < 64
    ensures Bounded(i)
  {
    match i {
      case 56 => assert Lextable(112) == 1 && Lextable(113) == 2;
      case 57 => assert Terminal(114) && Terminal(115);
      case 58 => assert Terminal(116) && Terminal(117);
      case 59 => assert Terminal(118) && Terminal(119);
      case 60 => assert Lextable(120) == 1 && Lextable(121) == 2;
      case 61 => assert Terminal(122) && Terminal(123);
      case 62 => assert Terminal(124) && Terminal(125);
      case _ => assert Lextable(126) == 1 && Lextable(127) == 2;
    }
  }

  lemma Places8(i: nat)
    requires 64 <= i < 72
    ensures Bounded(i)
  {
    match i {
      case 64 => assert Terminal(128) && Terminal(129);
      case 65 => assert Terminal(130) && Terminal(131);
      case 66 => assert Lextable(132) == 19 && Lextable(133) == 1;
      case 67 => assert Lextable(134) == 1 && Lextable(135) == 15;
      case 68 => assert Lextable(136) == 75 && Lextable(137) == 1;
      case 69 => assert Lextable(138) == 1 && Lextable(139) == 12;
      case 70 => assert Terminal(140) && Terminal(141);
      case _ => assert Lextable(142) == 1 && Lextable(143) == 8;
    }
  }

  lemma Places9(i: nat)
    requires 72 <= i < 80
    ensures Bounded(i)
  {
    match i {
      case 72 => assert Terminal(144) && Terminal(145);
      case 73 => assert Terminal(146) && Lextable(147) == 1;
      case 74 => assert Terminal(148) && Terminal(149);
      case 75 => assert Lextable(150) == 1 && Lextable(151) == 5;
      case 76 => assert Terminal(152) && Terminal(153);
      case 77 => assert Terminal(154) && Lextable(155) == 1;
      case 78 => assert Terminal(156) && Terminal(157);
      case _ => assert Terminal(158) && Terminal(159);
    }
  }

  lemma Places10(i: nat)
    requires 80 <= i < 88
    ensures Bounded(i)
  {
    match i {
      case 80 => assert Terminal(160) && Terminal(161);
      case 81 => assert Terminal(162) && Terminal(163);
      case 82 => assert Lextable(164) == 1 && Lextable(165) == 8;
      case 83 => assert Lextable(166) == 1 && Lextable(167) == 6;
      case 84 => assert Terminal(168) && Terminal(169);
      case 85 => assert Lextable(170) == 1 && Lextable(171) == 45;
      case 86 => assert Lextable(172) == 1 && Lextable(173) == 2;
      case _ => assert Terminal(174) && Terminal(175);
    }
  }

  lemma Places11(i: nat)
    requires 88 <= i < 96
    ensures Bounded(i)
  {
    match i {
      case 88 => assert Terminal(176) && Terminal(177);
      case 89 => assert Terminal(178) && Terminal(179);
      case 90 => assert Lextable(180) == 1 && Lextable(181) == 2;
      case 91 => assert Terminal(182) && Terminal(183);
      case 92 => assert Terminal(184) && Terminal(185);
      case 93 => assert Lextable(186) == 6 && Lextable(187) == 1;
      case 94 => assert Lextable(188) == 44 && Lextable(189) == 1;
      case _ => assert Lextable(190) == 47 && Lextable(191) == 1;
    }
  }

  lemma Places12(i: nat)
    requires 96 <= i < 104
    ensures Bounded(i)
  {
    match i {
      case 96 => assert Lextable(192) == 1 && Lextable(193) == 7;
      case 97 => assert Terminal(194) && Terminal(195);
      case 98 => assert Terminal(196) && Terminal(197);
      case 99 => assert Lextable(198) == 1 && Lextable(199) == 33;
      case 100 => assert Lextable(200) == 1 && Lextable(201) == 29;
      case 101 => assert Terminal(202) && Terminal(203);
      case 102 => assert Terminal(204) && Terminal(205);
      case _ => assert Terminal(206) && Terminal(207);
    }
  }

  lemma Places13(i: nat)
    requires 104 <= i < 112
    ensures Bounded(i)
  {
    match i {
      case 104 => assert Lextable(208) == 1 && Lextable(209) == 8;
      case 105 => assert Lextable(210) == 1 && Lextable(211) == 4;
      case 106 => assert Lextable(212) == 1 && Lextable(213) == 2;
      case 107 => assert Terminal(214) && Terminal(215);
      case 108 => assert Terminal(216) && Terminal(217);
      case 109 => assert Lextable(218) == 1 && Lextable(219) == 2;
      case 110 => assert Terminal(220) && Terminal(221);
      case _ => assert Terminal(222) && Terminal(223);
    }
  }

  lemma Places14(i: nat)
    requires 112 <= i < 120
    ensures Bounded(i)
  {
    match i {
      case 112 => assert Lextable(224) == 1 && Lextable(225) == 4;
      case 113 => assert Lextable(226) == 1 && Lextable(227) == 2;
      case 114 => assert Terminal(228) && Terminal(229);
      case 115 => assert Terminal(230) && Terminal(231);
      case 116 => assert Lextable(232) == 1 && Lextable(233) == 2;
      case 117 => assert Terminal(234) && Terminal(235);
      case 118 => assert Terminal(236) && Terminal(237);
      case _ => assert Lextable(238) == 1 && Lextable(239) == 17;
    }
  }

  lemma Places15(i: nat)
    requires 120 <= i < 128
    ensures Bounded(i)
  {
    match i {
      case 120 => assert Lextable(240) == 1 && Lextable(241) == 2;
      case 121 => assert Terminal(242) && Terminal(243);
      case 122 => assert Terminal(244) && Terminal(245);
      case 123 => assert Terminal(246) && Terminal(247);
      case 124 => assert Lextable(248) == 1 && Lextable(249) == 31;
      case 125 => assert Lextable(250) == 1 && Lextable(251) == 23;
      case 126 => assert Terminal(252) && Terminal(253);
      case _ => assert Terminal(254) && Terminal(255);
    }
  }

  lemma Places16(i: nat)
    requires 128 <= i < 136
    ensures Bounded(i)
  {
    match i {
      case 128 => assert Terminal(256) && Terminal(257);
      case 129 => assert Terminal(258) && Terminal(259);
      case 130 => assert Lextable(260) == 1 && Lextable(261) == 5;
      case 131 => assert Terminal(262) && Terminal(263);
      case 132 => assert Lextable(264) == 1 && Lextable(265) == 2;
      case 133 => assert Terminal(266) && Terminal(267);
      case 134 => assert Terminal(268) && Terminal(269);
      case _ => assert Terminal(270) && Terminal(271);
    }
  }

  lemma Places17(i: nat)
    requires 136 <= i < 144
    ensures Bounded(i)
  {
    match i {
      case 136 => assert Lextable(272) == 1 && Lextable(273) == 5;
      case 137 => assert Terminal(274) && Terminal(275);
      case 138 => assert Lextable(276) == 1 && Lextable(277) == 2;
      case 139 => assert Terminal(278) && Terminal(279);
      case 140 => assert Terminal(280) && Terminal(281);
      case 141 => assert Terminal(282) && Terminal(283);
      case 142 => assert Terminal(284) && Terminal(285);
      case _ => assert Terminal(286) && Terminal(287);
    }
  }

  lemma Places18(i: nat)
    requires 144 <= i < 152
    ensures Bounded(i)
  {
    match i {
      case 144 => assert Lextable(288) == 1 && Lextable(289) == 2;
      case 145 => assert Terminal(290) && Terminal(291);
      case 146 => assert Terminal(292) && Terminal(293);
      case 147 => assert Terminal(294) && Terminal(295);
      case 148 => assert Terminal(296) && Lextable(297) == 1;
      case 149 => assert Terminal(298) && Terminal(299);
      case 150 => assert Lextable(300) == 46 && Lextable(301) == 1;
      case _ => assert Lextable(302) == 1 && Lextable(303) == 27;
    }
  }

  lemma Places19(i: nat)
    requires 152 <= i < 160
    ensures Bounded(i)
  {
    match i {
      case 152 => assert Lextable(304) == 1 && Lextable(305) == 6;
      case 153 => assert Terminal(306) && Lextable(307) == 1;
      case 154 => assert Terminal(308) && Terminal(309);
      case 155 => assert Lextable(310) == 1 && Lextable(311) == 20;
      case 156 => assert Lextable(312) == 1 && Lextable(313) == 48;
      case 157 => assert Terminal(314) && Terminal(315);
      case 158 => assert Lextable(316) == 1 && Lextable(317) == 2;
      case _ => assert Terminal(318) && Terminal(319);
    }
  }

  lemma Places20(i: nat)
    requires 160 <= i < 168
    ensures Bounded(i)
  {
    match i {
      case 160 => assert Terminal(320) && Terminal(321);
      case 161 => assert Terminal(322) && Terminal(323);
      case 162 => assert Lextable(324) == 1 && Lextable(325) == 2;
      case 163 => assert Terminal(326) && Terminal(327);
      case 164 => assert Terminal(328) && Terminal(329);
      case 165 => assert Lextable(330) == 1 && Lextable(331) == 6;
      case 166 => assert Terminal(332) && Terminal(333);
      case _ => assert Lextable(334) == 1 && Lextable(335) == 18;
    }
  }

  lemma Places21(i: nat)
    requires 168 <= i < 176
    ensures Bounded(i)
  {
    match i {
      case 168 => assert Lextable(336) == 1 && Lextable(337) == 5;
      case 169 => assert Lextable(338) == 1 && Lextable(339) == 3;
      case 170 => assert Terminal(340) && Terminal(341);
      case 171 => assert Terminal(342) && Terminal(343);
      case 172 => assert Terminal(344) && Terminal(345);
      case 173 => assert Lextable(346) == 1 && Lextable(347) == 8;
      case 174 => assert Terminal(348) && Terminal(349);
      case _ => assert Lextable(350) == 66 && Lextable(351) == 1;
    }
  }

  lemma Places22(i: nat)
    requires 176 <= i < 184
    ensures Bounded(i)
  {
    match i {
      case 176 => assert Lextable(352) == 1 && Lextable(353) == 12;
      case 177 => assert Terminal(354) && Terminal(355);
      case 178 => assert Lextable(356) == 1 && Lextable(357) == 5;
      case 179 => assert Lextable(358) == 1 && Lextable(359) == 3;
      case 180 => assert Terminal(360) && Terminal(361);
      case 181 => assert Terminal(362) && Terminal(363);
      case 182 => assert Terminal(364) && Terminal(365);
      case _ => assert Lextable(366) == 1 && Lextable(367) == 7;
    }
  }

  lemma Places23(i: nat)
    requires 184 <= i < 192
    ensures Bounded(i)
  {
    match i {
      case 184 => assert Terminal(368) && Terminal(369);
      case 185 => assert Lextable(370) == 1 && Lextable(371) == 9;
      case 186 => assert Lextable(372) == 1 && Lextable(373) == 3;
      case 187 => assert Terminal(374) && Terminal(375);
      case 188 => assert Terminal(376) && Terminal(377);
      case 189 => assert Terminal(378) && Terminal(379);
      case 190 => assert Terminal(380) && Terminal(381);
      case _ => assert Lextable(382) == 1 && Lextable(383) == 27;
    }
  }

  lemma Places24(i: nat)
    requires 192 <= i < 200
    ensures Bounded(i)
  {
    match i {
      case 192 => assert Lextable(384) == 1 && Lextable(385) == 42;
      case 193 => assert Terminal(386) && Terminal(387);
      case 194 => assert Lextable(388) == 1 && Lextable(389) == 9;
      case 195 => assert Terminal(390) && Terminal(391);
      case 196 => assert Lextable(392) == 1 && Lextable(393) == 39;
      case 197 => assert Lextable(394) == 1 && Lextable(395) == 5;
      case 198 => assert Terminal(396) && Terminal(397);
      case _ => assert Lextable(398) == 1 && Lextable(399) == 7;
    }
  }

  lemma Places25(i: nat)
    requires 200 <= i < 208
    ensures Bounded(i)
  {
    match i {
      case 200 => assert Lextable(400) == 1 && Lextable(401) == 5;
      case 201 => assert Terminal(402) && Terminal(403);
      case 202 => assert Terminal(404) && Terminal(405);
      case 203 => assert Terminal(406) && Terminal(407);
      case 204 => assert Terminal(408) && Terminal(409);
      case 205 => assert Terminal(410) && Terminal(411);
      case 206 => assert Lextable(412) == 1 && Lextable(413) == 4;
      case _ => assert Terminal(414) && Terminal(415);
    }
  }

  lemma Places26(i: nat)
    requires 208 <= i < 216
    ensures Bounded(i)
  {
    match i {
      case 208 => assert Lextable(416) == 1 && Lextable(417) == 7;
      case 209 => assert Terminal(418) && Terminal(419);
      case 210 => assert Terminal(420) && Terminal(421);
      case 211 => assert Lextable(422) == 1 && Lextable(423) == 13;
      case 212 => assert Lextable(424) == 1 && Lextable(425) == 10;
      case 213 => assert Lextable(426) == 1 && Lextable(427) == 8;
      case 214 => assert Terminal(428) && Terminal(429);
      case _ => assert Terminal(430) && Terminal(431);
    }
  }

  lemma Places27(i: nat)
    requires 216 <= i < 224
    ensures Bounded(i)
  {
    match i {
      case 216 => assert Lextable(432) == 1 && Lextable(433) == 27;
      case 217 => assert Terminal(434) && Terminal(435);
      case 218 => assert Lextable(436) == 27 && Lextable(437) == 1;
      case 219 => assert Lextable(438) == 1 && Lextable(439) == 25;
      case 220 => assert Terminal(440) && Terminal(441);
      case 221 => assert Terminal(442) && Terminal(443);
      case 222 => assert Lextable(444) == 1 && Lextable(445) == 6;
      case _ => assert Terminal(446) && Terminal(447);
    }
  }

  lemma Places28(i: nat)
    requires 224 <= i < 232
    ensures Bounded(i)
  {
    match i {
      case 224 => assert Lextable(448) == 13 && Lextable(449) == 1;
      case 225 => assert Lextable(450) == 23 && Lextable(451) == 1;
      case 226 => assert Terminal(452) && Lextable(453) == 1;
      case 227 => assert Terminal(454) && Terminal(455);
      case 228 => assert Terminal(456) && Terminal(457);
      case 229 => assert Lextable(458) == 1 && Lextable(459) == 20;
      case 230 => assert Lextable(460) == 1 && Lextable(461) == 9;
      case _ => assert Lextable(462) == 1 && Lextable(463) == 2;
    }
  }

  lemma Places29(i: nat)
    requires 232 <= i < 240
    ensures Bounded(i)
  {
    match i {
      case 232 => assert Terminal(464) && Terminal(465);
      case 233 => assert Terminal(466) && Terminal(467);
      case 234 => assert Terminal(468) && Terminal(469);
      case 235 => assert Lextable(470) == 1 && Lextable(471) == 7;
      case 236 => assert Terminal(472) && Terminal(473);
      case 237 => assert Lextable(474) == 1 && Lextable(475) == 9;
      case 238 => assert Terminal(476) && Terminal(477);
      case _ => assert Lextable(478) == 1 && Lextable(479) == 8;
    }
  }

  lemma Places30(i: nat)
    requires 240 <= i < 248
    ensures Bounded(i)
  {
    match i {
      case 240 => assert Terminal(480) && Terminal(481);
      case 241 => assert Terminal(482) && Terminal(483);
      case 242 => assert Terminal(484) && Terminal(485);
      case 243 => assert Terminal(486) && Terminal(487);
      case 244 => assert Terminal(488) && Terminal(489);
      case 245 => assert Terminal(490) && Terminal(491);
      case 246 => assert Terminal(492) && Terminal(493);
      case _ => assert Terminal(494) && Terminal(495);
    }
  }

  lemma Places31(i: nat)
    requires 248 <= i < 256
    ensures Bounded(i)
  {
    match i {
      case 248 => assert Terminal(496) && Terminal(497);
      case 249 => assert Lextable(498) == 1 && Lextable(499) == 4;
      case 250 => assert Lextable(500) == 1 && Lextable(501) == 2;
      case 251 => assert Terminal(502) && Terminal(503);
      case 252 => assert Terminal(504) && Terminal(505);
      case 253 => assert Lextable(506) == 1 && Lextable(507) == 2;
      case 254 => assert Terminal(508) && Terminal(509);
      case _ => assert Terminal(510) && Terminal(511);
    }
  }

  lemma AllBounded(i: nat)
    requires i < 256
    ensures Bounded(i)
  {
    hide *;
    if i < 8 { Places0(i); }
    else if i < 16 { Places1(i); }
    else if i < 24 { Places2(i); }
    else if i < 32 { Places3(i); }
    else if i < 40 { Places4(i); }
    else if i < 48 { Places5(i); }
    else if i < 56 { Places6(i); }
    else if i < 64 { Places7(i); }
    else if i < 72 { Places8(i); }
    else if i < 80 { Places9(i); }
    else if i < 88 { Places10(i); }
    else if i < 96 { Places11(i); }
    else if i < 104 { Places12(i); }
    else if i < 112 { Places13(i); }
    else if i < 120 { Places14(i); }
    else if i < 128 { Places15(i); }
    else if i < 136 { Places16(i); }
    else if i < 144 { Places17(i); }
    else if i < 152 { Places18(i); }
    else if i < 160 { Places19(i); }
    else if i < 168 { Places20(i); }
    else if i < 176 { Places21(i); }
    else if i < 184 { Places22(i); }
    else if i < 192 { Places23(i); }
    else if i < 200 { Places24(i); }
    else if i < 208 { Places25(i); }
    else if i < 216 { Places26(i); }
    else if i < 224 { Places27(i); }
    else if i < 232 { Places28(i); }
    else if i < 240 { Places29(i); }
    else if i < 248 { Places30(i); }
    else { Places31(i); }
  }

  lemma Symbols0(s: nat)
    requires 0 <= s < 12
    ensures HasPlace(s)
  {
    match s {
      case 0 => assert Symbol(0, 12, 0);
      case 1 => assert Symbol(1, 24, 0);
      case 2 => assert Symbol(2, 34, 0);
      case 3 => assert Symbol(3, 34, 1);
      case 4 => assert Symbol(4, 36, 0);
      case 5 => assert Symbol(5, 36, 1);
      case 6 => assert Symbol(6, 37, 0);
      case 7 => assert Symbol(7, 37, 1);
      case 8 => assert Symbol(8, 40, 0);
      case 9 => assert Symbol(9, 44, 0);
      case 10 => assert Symbol(10, 50, 0);
      case _ => assert Symbol(11, 40, 1);
    }
  }

  lemma Symbols1(s: nat)
    requires 12 <= s < 24
    ensures HasPlace(s)
  {
    match s {
      case 12 => assert Symbol(12, 51, 0);
      case 13 => assert Symbol(13, 50, 1);
      case 14 => assert Symbol(14, 51, 1);
      case 15 => assert Symbol(15, 53, 0);
      case 16 => assert Symbol(16, 53, 1);
      case 17 => assert Symbol(17, 54, 0);
      case 18 => assert Symbol(18, 54, 1);
      case 19 => assert Symbol(19, 57, 0);
      case 20 => assert Symbol(20, 57, 1);
      case 21 => assert Symbol(21, 58, 0);
      case 22 => assert Symbol(22, 59, 0);
      case _ => assert Symbol(23, 58, 1);
    }
  }

  lemma Symbols2(s: nat)
    requires 24 <= s < 36
    ensures HasPlace(s)
  {
    match s {
      case 24 => assert Symbol(24, 61, 0);
      case 25 => assert Symbol(25, 61, 1);
      case 26 => assert Symbol(26, 62, 0);
      case 27 => assert Symbol(27, 62, 1);
      case 28 => assert Symbol(28, 64, 0);
      case 29 => assert Symbol(29, 64, 1);
      case 30 => assert Symbol(30, 65, 0);
      case 31 => assert Symbol(31, 65, 1);
      case 32 => assert Symbol(32, 70, 0);
      case 33 => assert Symbol(33, 72, 0);
      case 34 => assert Symbol(34, 72, 1);
      case _ => assert Symbol(35, 74, 0);
    }
  }

  lemma Symbols3(s: nat)
    requires 36 <= s < 48
    ensures HasPlace(s)
  {
    match s {
      case 36 => assert Symbol(36, 12, 1);
      case 37 => assert Symbol(37, 70, 1);
      case 38 => assert Symbol(38, 76, 0);
      case 39 => assert Symbol(39, 78, 0);
      case 40 => assert Symbol(40, 79, 0);
      case 41 => assert Symbol(41, 79, 1);
      case 42 => assert Symbol(42, 76, 1);
      case 43 => assert Symbol(43, 78, 1);
      case 44 => assert Symbol(44, 80, 0);
      case 45 => assert Symbol(45, 81, 0);
      case 46 => assert Symbol(46, 81, 1);
      case _ => assert Symbol(47, 84, 0);
    }
  }

  lemma Symbols4(s: nat)
    requires 48 <= s < 60
    ensures HasPlace(s)
  {
    match s {
      case 48 => assert Symbol(48, 87, 0);
      case 49 => assert Symbol(49, 87, 1);
      case 50 => assert Symbol(50, 88, 0);
      case 51 => assert Symbol(51, 84, 1);
      case 52 => assert Symbol(52, 89, 0);
      case 53 => assert Symbol(53, 89, 1);
      case 54 => assert Symbol(54, 91, 0);
      case 55 => assert Symbol(55, 91, 1);
      case 56 => assert Symbol(56, 92, 0);
      case 57 => assert Symbol(57, 92, 1);
      case 58 => assert Symbol(58, 97, 0);
      case _ => assert Symbol(59, 80, 1);
    }
  }

  lemma Symbols5(s: nat)
    requires 60 <= s < 72
    ensures HasPlace(s)
  {
    match s {
      case 60 => assert Symbol(60, 98, 0);
      case 61 => assert Symbol(61, 101, 0);
      case 62 => assert Symbol(62, 74, 1);
      case 63 => assert Symbol(63, 77, 0);
      case 64 => assert Symbol(64, 102, 0);
      case 65 => assert Symbol(65, 101, 1);
      case 66 => assert Symbol(66, 97, 1);
      case 67 => assert Symbol(67, 103, 0);
      case 68 => assert Symbol(68, 103, 1);
      case 69 => assert Symbol(69, 107, 0);
      case 70 => assert Symbol(70, 107, 1);
      case _ => assert Symbol(71, 108, 0);
    }
  }

  lemma Symbols6(s: nat)
    requires 72 <= s < 84
    ensures HasPlace(s)
  {
    match s {
      case 72 => assert Symbol(72, 108, 1);
      case 73 => assert Symbol(73, 110, 0);
      case 74 => assert Symbol(74, 110, 1);
      case 75 => assert Symbol(75, 111, 0);
      case 76 => assert Symbol(76, 111, 1);
      case 77 => assert Symbol(77, 114, 0);
      case 78 => assert Symbol(78, 114, 1);
      case 79 => assert Symbol(79, 115, 0);
      case 80 => assert Symbol(80, 115, 1);
      case 81 => assert Symbol(81, 117, 0);
      case 82 => assert Symbol(82, 117, 1);
      case _ => assert Symbol(83, 118, 0);
    }
  }

  lemma Symbols7(s: nat)
    requires 84 <= s < 96
    ensures HasPlace(s)
  {
    match s {
      case 84 => assert Symbol(84, 118, 1);
      case 85 => assert Symbol(85, 121, 0);
      case 86 => assert Symbol(86, 121, 1);
      case 87 => assert Symbol(87, 122, 0);
      case 88 => assert Symbol(88, 123, 0);
      case 89 => assert Symbol(89, 122, 1);
      case 90 => assert Symbol(90, 123, 1);
      case 91 => assert Symbol(91, 102, 1);
      case 92 => assert Symbol(92, 126, 0);
      case 93 => assert Symbol(93, 127, 0);
      case 94 => assert Symbol(94, 128, 0);
      case _ => assert Symbol(95, 129, 0);
    }
  }

  lemma Symbols8(s: nat)
    requires 96 <= s < 108
    ensures HasPlace(s)
  {
    match s {
      case 96 => assert Symbol(96, 98, 1);
      case 97 => assert Symbol(97, 88, 1);
      case 98 => assert Symbol(98, 129, 1);
      case 99 => assert Symbol(99, 131, 0);
      case 100 => assert Symbol(100, 133, 0);
      case 101 => assert Symbol(101, 131, 1);
      case 102 => assert Symbol(102, 133, 1);
      case 103 => assert Symbol(103, 134, 0);
      case 104 => assert Symbol(104, 134, 1);
      case 105 => assert Symbol(105, 135, 0);
      case 106 => assert Symbol(106, 137, 0);
      case _ => assert Symbol(107, 137, 1);
    }
  }

  lemma Symbols9(s: nat)
    requires 108 <= s < 120
    ensures HasPlace(s)
  {
    match s {
      case 108 => assert Symbol(108, 139, 0);
      case 109 => assert Symbol(109, 139, 1);
      case 110 => assert Symbol(110, 140, 0);
      case 111 => assert Symbol(111, 135, 1);
      case 112 => assert Symbol(112, 140, 1);
      case 113 => assert Symbol(113, 141, 0);
      case 114 => assert Symbol(114, 142, 0);
      case 115 => assert Symbol(115, 143, 0);
      case 116 => assert Symbol(116, 143, 1);
      case 117 => assert Symbol(117, 142, 1);
      case 118 => assert Symbol(118, 141, 1);
      case _ => assert Symbol(119, 145, 0);
    }
  }

  lemma Symbols10(s: nat)
    requires 120 <= s < 132
    ensures HasPlace(s)
  {
    match s {
      case 120 => assert Symbol(120, 145, 1);
      case 121 => assert Symbol(121, 146, 0);
      case 122 => assert Symbol(122, 146, 1);
      case 123 => assert Symbol(123, 16, 0);
      case 124 => assert Symbol(124, 73, 0);
      case 125 => assert Symbol(125, 128, 1);
      case 126 => assert Symbol(126, 127, 1);
      case 127 => assert Symbol(127, 147, 0);
      case 128 => assert Symbol(128, 149, 0);
      case 129 => assert Symbol(129, 154, 0);
      case 130 => assert Symbol(130, 149, 1);
      case _ => assert Symbol(131, 157, 0);
    }
  }

  lemma Symbols11(s: nat)
    requires 132 <= s < 144
    ensures HasPlace(s)
  {
    match s {
      case 132 => assert Symbol(132, 154, 1);
      case 133 => assert Symbol(133, 159, 0);
      case 134 => assert Symbol(134, 159, 1);
      case 135 => assert Symbol(135, 24, 1);
      case 136 => assert Symbol(136, 160, 0);
      case 137 => assert Symbol(137, 161, 0);
      case 138 => assert Symbol(138, 161, 1);
      case 139 => assert Symbol(139, 163, 0);
      case 140 => assert Symbol(140, 163, 1);
      case 141 => assert Symbol(141, 164, 0);
      case 142 => assert Symbol(142, 44, 1);
      case _ => assert Symbol(143, 164, 1);
    }
  }

  lemma Symbols12(s: nat)
    requires 144 <= s < 156
    ensures HasPlace(s)
  {
    match s {
      case 144 => assert Symbol(144, 166, 0);
      case 145 => assert Symbol(145, 166, 1);
      case 146 => assert Symbol(146, 160, 1);
      case 147 => assert Symbol(147, 170, 0);
      case 148 => assert Symbol(148, 171, 0);
      case 149 => assert Symbol(149, 170, 1);
      case 150 => assert Symbol(150, 172, 0);
      case 151 => assert Symbol(151, 172, 1);
      case 152 => assert Symbol(152, 174, 0);
      case 153 => assert Symbol(153, 177, 0);
      case 154 => assert Symbol(154, 180, 0);
      case _ => assert Symbol(155, 174, 1);
    }
  }

  lemma Symbols13(s: nat)
    requires 156 <= s < 168
    ensures HasPlace(s)
  {
    match s {
      case 156 => assert Symbol(156, 180, 1);
      case 157 => assert Symbol(157, 181, 0);
      case 158 => assert Symbol(158, 181, 1);
      case 159 => assert Symbol(159, 171, 1);
      case 160 => assert Symbol(160, 182, 0);
      case 161 => assert Symbol(161, 177, 1);
      case 162 => assert Symbol(162, 157, 1);
      case 163 => assert Symbol(163, 182, 1);
      case 164 => assert Symbol(164, 184, 0);
      case 165 => assert Symbol(165, 187, 0);
      case 166 => assert Symbol(166, 187, 1);
      case _ => assert Symbol(167, 188, 0);
    }
  }

  lemma Symbols14(s: nat)
    requires 168 <= s < 180
    ensures HasPlace(s)
  {
    match s {
      case 168 => assert Symbol(168, 189, 0);
      case 169 => assert Symbol(169, 184, 1);
      case 170 => assert Symbol(170, 190, 0);
      case 171 => assert Symbol(171, 193, 0);
      case 172 => assert Symbol(172, 188, 1);
      case 173 => assert Symbol(173, 190, 1);
      case 174 => assert Symbol(174, 189, 1);
      case 175 => assert Symbol(175, 195, 0);
      case 176 => assert Symbol(176, 198, 0);
      case 177 => assert Symbol(177, 198, 1);
      case 178 => assert Symbol(178, 201, 0);
      case _ => assert Symbol(179, 202, 0);
    }
  }

  lemma Symbols15(s: nat)
    requires 180 <= s < 192
    ensures HasPlace(s)
  {
    match s {
      case 180 => assert Symbol(180, 195, 1);
      case 181 => assert Symbol(181, 201, 1);
      case 182 => assert Symbol(182, 203, 0);
      case 183 => assert Symbol(183, 203, 1);
      case 184 => assert Symbol(184, 204, 0);
      case 185 => assert Symbol(185, 205, 0);
      case 186 => assert Symbol(186, 205, 1);
      case 187 => assert Symbol(187, 207, 0);
      case 188 => assert Symbol(188, 209, 0);
      case 189 => assert Symbol(189, 207, 1);
      case 190 => assert Symbol(190, 210, 0);
      case _ => assert Symbol(191, 209, 1);
    }
  }

  lemma Symbols16(s: nat)
    requires 192 <= s < 204
    ensures HasPlace(s)
  {
    match s {
      case 192 => assert Symbol(192, 214, 0);
      case 193 => assert Symbol(193, 214, 1);
      case 194 => assert Symbol(194, 204, 1);
      case 195 => assert Symbol(195, 126, 1);
      case 196 => assert Symbol(196, 210, 1);
      case 197 => assert Symbol(197, 215, 0);
      case 198 => assert Symbol(198, 217, 0);
      case 199 => assert Symbol(199, 220, 0);
      case 200 => assert Symbol(200, 221, 0);
      case 201 => assert Symbol(201, 221, 1);
      case 202 => assert Symbol(202, 223, 0);
      case _ => assert Symbol(203, 227, 0);
    }
  }

  lemma Symbols17(s: nat)
    requires 204 <= s < 216
    ensures HasPlace(s)
  {
    match s {
      case 204 => assert Symbol(204, 227, 1);
      case 205 => assert Symbol(205, 223, 1);
      case 206 => assert Symbol(206, 193, 1);
      case 207 => assert Symbol(207, 220, 1);
      case 208 => assert Symbol(208, 148, 0);
      case 209 => assert Symbol(209, 202, 1);
      case 210 => assert Symbol(210, 228, 0);
      case 211 => assert Symbol(211, 232, 0);
      case 212 => assert Symbol(212, 232, 1);
      case 213 => assert Symbol(213, 228, 1);
      case 214 => assert Symbol(214, 233, 0);
      case _ => assert Symbol(215, 234, 0);
    }
  }

  lemma Symbols18(s: nat)
    requires 216 <= s < 228
    ensures HasPlace(s)
  {
    match s {
      case 216 => assert Symbol(216, 236, 0);
      case 217 => assert Symbol(217, 236, 1);
      case 218 => assert Symbol(218, 238, 0);
      case 219 => assert Symbol(219, 238, 1);
      case 220 => assert Symbol(220, 147, 1);
      case 221 => assert Symbol(221, 233, 1);
      case 222 => assert Symbol(222, 240, 0);
      case 223 => assert Symbol(223, 240, 1);
      case 224 => assert Symbol(224, 241, 0);
      case 225 => assert Symbol(225, 234, 1);
      case 226 => assert Symbol(226, 241, 1);
      case _ => assert Symbol(227, 242, 0);
    }
  }

  lemma Symbols19(s: nat)
    requires 228 <= s < 240
    ensures HasPlace(s)
  {
    match s {
      case 228 => assert Symbol(228, 217, 1);
      case 229 => assert Symbol(229, 242, 1);
      case 230 => assert Symbol(230, 153, 0);
      case 231 => assert Symbol(231, 215, 1);
      case 232 => assert Symbol(232, 243, 0);
      case 233 => assert Symbol(233, 243, 1);
      case 234 => assert Symbol(234, 244, 0);
      case 235 => assert Symbol(235, 244, 1);
      case 236 => assert Symbol(236, 245, 0);
      case 237 => assert Symbol(237, 245, 1);
      case 238 => assert Symbol(238, 246, 0);
      case _ => assert Symbol(239, 43, 0);
    }
  }

  lemma Symbols20(s: nat)
    requires 240 <= s < 252
    ensures HasPlace(s)
  {
    match s {
      case 240 => assert Symbol(240, 246, 1);
      case 241 => assert Symbol(241, 247, 0);
      case 242 => assert Symbol(242, 248, 0);
      case 243 => assert Symbol(243, 248, 1);
      case 244 => assert Symbol(244, 247, 1);
      case 245 => assert Symbol(245, 251, 0);
      case 246 => assert Symbol(246, 251, 1);
      case 247 => assert Symbol(247, 252, 0);
      case 248 => assert Symbol(248, 252, 1);
      case 249 => assert Symbol(249, 48, 0);
      case 250 => assert Symbol(250, 254, 0);
      case _ => assert Symbol(251, 254, 1);
    }
  }

  lemma Symbols21(s: nat)
    requires 252 <= s < 257
    ensures HasPlace(s)
  {
    match s {
      case 252 => assert Symbol(252, 255, 0);
      case 253 => assert Symbol(253, 255, 1);
      case 254 => assert Symbol(254, 33, 0);
      case 255 => assert Symbol(255, 226, 0);
      case _ => assert Symbol(256, 59, 1);
    }
  }

  lemma AllSymbols(s: nat)
    requires s <= 256
    ensures HasPlace(s)
  {
    hide *;
    if s < 12 { Symbols0(s); }
    else if s < 24 { Symbols1(s); }
    else if s < 36 { Symbols2(s); }
    else if s < 48 { Symbols3(s); }
    else if s < 60 { Symbols4(s); }
    else if s < 72 { Symbols5(s); }
    else if s < 84 { Symbols6(s); }
    else if s < 96 { Symbols7(s); }
    else if s < 108 { Symbols8(s); }
    else if s < 120 { Symbols9(s); }
    else if s < 132 { Symbols10(s); }
    else if s < 144 { Symbols11(s); }
    else if s < 156 { Symbols12(s); }
    else if s < 168 { Symbols13(s); }
    else if s < 180 { Symbols14(s); }
    else if s < 192 { Symbols15(s); }
    else if s < 204 { Symbols16(s); }
    else if s < 216 { Symbols17(s); }
    else if s < 228 { Symbols18(s); }
    else if s < 240 { Symbols19(s); }
    else if s < 252 { Symbols20(s); }
    else { Symbols21(s); }
  }
}
