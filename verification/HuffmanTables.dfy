/** The tables of the Huffman decoder, and the code they are made for: Appendix B of RFC 7541. */
module HuffmanTables {

  /** `lextable`: at a terminal place the symbol, elsewhere half the distance to the next state. */
  function Lextable(q: nat): nat {
    if q < 128 then LextableA(q)
    else if q < 256 then LextableB(q)
    else if q < 384 then LextableC(q)
    else LextableD(q)
  }

  function LextableA(q: nat): nat {
    if q < 8 then match q { case 0 => 66 case 1 => 1 case 2 => 92 case 3 => 1 case 4 => 102 case 5 => 1 case 6 => 116 case _ => 1 }
    else if q < 16 then match q { case 8 => 140 case 9 => 1 case 10 => 70 case 11 => 1 case 12 => 117 case 13 => 1 case 14 => 64 case _ => 1 }
    else if q < 24 then match q { case 16 => 69 case 17 => 1 case 18 => 64 case 19 => 1 case 20 => 1 case 21 => 3 case 22 => 1 case _ => 91 }
    else if q < 32 then match q { case 24 => 0 case 25 => 36 case 26 => 114 case 27 => 1 case 28 => 114 case 29 => 1 case 30 => 83 case _ => 1 }
    else if q < 40 then match q { case 32 => 123 case 33 => 1 case 34 => 107 case 35 => 1 case 36 => 132 case 37 => 1 case 38 => 1 case _ => 6 }
    else if q < 48 then match q { case 40 => 179 case 41 => 1 case 42 => 195 case 43 => 1 case 44 => 1 case 45 => 140 case 46 => 1 case _ => 138 }
    else if q < 56 then match q { case 48 => 1 case 49 => 135 case 50 => 142 case 51 => 1 case 52 => 15 case 53 => 1 case 54 => 164 case _ => 1 }
    else if q < 64 then match q { case 56 => 183 case 57 => 1 case 58 => 200 case 59 => 1 case 60 => 1 case 61 => 15 case 62 => 1 case _ => 7 }
    else if q < 72 then match q { case 64 => 1 case 65 => 3 case 66 => 254 case 67 => 1 case 68 => 2 case 69 => 3 case 70 => 1 case _ => 2 }
    else if q < 80 then match q { case 72 => 4 case 73 => 5 case 74 => 6 case 75 => 7 case 76 => 1 case 77 => 14 case 78 => 1 case _ => 12 }
    else if q < 88 then match q { case 80 => 8 case 81 => 11 case 82 => 167 case 83 => 1 case 84 => 1 case 85 => 123 case 86 => 239 case _ => 1 }
    else if q < 96 then match q { case 88 => 9 case 89 => 142 case 90 => 10 case 91 => 1 case 92 => 17 case 93 => 1 case 94 => 100 case _ => 1 }
    else if q < 104 then match q { case 96 => 249 case 97 => 1 case 98 => 1 case 99 => 10 case 100 => 10 case 101 => 13 case 102 => 12 case _ => 14 }
    else if q < 112 then match q { case 104 => 1 case 105 => 2 case 106 => 15 case 107 => 16 case 108 => 17 case 109 => 18 case 110 => 1 case _ => 5 }
    else if q < 120 then match q { case 112 => 1 case 113 => 2 case 114 => 19 case 115 => 20 case 116 => 21 case 117 => 23 case 118 => 22 case _ => 0 }
    else match q { case 120 => 1 case 121 => 2 case 122 => 24 case 123 => 25 case 124 => 26 case 125 => 27 case 126 => 1 case _ => 2 }
  }

  function LextableB(q: nat): nat {
    if q < 136 then match q { case 128 => 28 case 129 => 29 case 130 => 30 case 131 => 31 case 132 => 19 case 133 => 1 case 134 => 1 case _ => 15 }
    else if q < 144 then match q { case 136 => 75 case 137 => 1 case 138 => 1 case 139 => 12 case 140 => 32 case 141 => 37 case 142 => 1 case _ => 8 }
    else if q < 152 then match q { case 144 => 33 case 145 => 34 case 146 => 124 case 147 => 1 case 148 => 35 case 149 => 62 case 150 => 1 case _ => 5 }
    else if q < 160 then match q { case 152 => 38 case 153 => 42 case 154 => 63 case 155 => 1 case 156 => 39 case 157 => 43 case 158 => 40 case _ => 41 }
    else if q < 168 then match q { case 160 => 44 case 161 => 59 case 162 => 45 case 163 => 46 case 164 => 1 case 165 => 8 case 166 => 1 case _ => 6 }
    else if q < 176 then match q { case 168 => 47 case 169 => 51 case 170 => 1 case 171 => 45 case 172 => 1 case 173 => 2 case 174 => 48 case _ => 49 }
    else if q < 184 then match q { case 176 => 50 case 177 => 97 case 178 => 52 case 179 => 53 case 180 => 1 case 181 => 2 case 182 => 54 case _ => 55 }
    else if q < 192 then match q { case 184 => 56 case 185 => 57 case 186 => 6 case 187 => 1 case 188 => 44 case 189 => 1 case 190 => 47 case _ => 1 }
    else if q < 200 then match q { case 192 => 1 case 193 => 7 case 194 => 58 case 195 => 66 case 196 => 60 case 197 => 96 case 198 => 1 case _ => 33 }
    else if q < 208 then match q { case 200 => 1 case 201 => 29 case 202 => 61 case 203 => 65 case 204 => 64 case 205 => 91 case 206 => 67 case _ => 68 }
    else if q < 216 then match q { case 208 => 1 case 209 => 8 case 210 => 1 case 211 => 4 case 212 => 1 case 213 => 2 case 214 => 69 case _ => 70 }
    else if q < 224 then match q { case 216 => 71 case 217 => 72 case 218 => 1 case 219 => 2 case 220 => 73 case 221 => 74 case 222 => 75 case _ => 76 }
    else if q < 232 then match q { case 224 => 1 case 225 => 4 case 226 => 1 case 227 => 2 case 228 => 77 case 229 => 78 case 230 => 79 case _ => 80 }
    else if q < 240 then match q { case 232 => 1 case 233 => 2 case 234 => 81 case 235 => 82 case 236 => 83 case 237 => 84 case 238 => 1 case _ => 17 }
    else if q < 248 then match q { case 240 => 1 case 241 => 2 case 242 => 85 case 243 => 86 case 244 => 87 case 245 => 89 case 246 => 88 case _ => 90 }
    else match q { case 248 => 1 case 249 => 31 case 250 => 1 case 251 => 23 case 252 => 92 case 253 => 195 case 254 => 93 case _ => 126 }
  }

  function LextableC(q: nat): nat {
    if q < 264 then match q { case 256 => 94 case 257 => 125 case 258 => 95 case 259 => 98 case 260 => 1 case 261 => 5 case 262 => 99 case _ => 101 }
    else if q < 272 then match q { case 264 => 1 case 265 => 2 case 266 => 100 case 267 => 102 case 268 => 103 case 269 => 104 case 270 => 105 case _ => 111 }
    else if q < 280 then match q { case 272 => 1 case 273 => 5 case 274 => 106 case 275 => 107 case 276 => 1 case 277 => 2 case 278 => 108 case _ => 109 }
    else if q < 288 then match q { case 280 => 110 case 281 => 112 case 282 => 113 case 283 => 118 case 284 => 114 case 285 => 117 case 286 => 115 case _ => 116 }
    else if q < 296 then match q { case 288 => 1 case 289 => 2 case 290 => 119 case 291 => 120 case 292 => 121 case 293 => 122 case 294 => 127 case _ => 220 }
    else if q < 304 then match q { case 296 => 208 case 297 => 1 case 298 => 128 case 299 => 130 case 300 => 46 case 301 => 1 case 302 => 1 case _ => 27 }
    else if q < 312 then match q { case 304 => 1 case 305 => 6 case 306 => 230 case 307 => 1 case 308 => 129 case 309 => 132 case 310 => 1 case _ => 20 }
    else if q < 320 then match q { case 312 => 1 case 313 => 48 case 314 => 131 case 315 => 162 case 316 => 1 case 317 => 2 case 318 => 133 case _ => 134 }
    else if q < 328 then match q { case 320 => 136 case 321 => 146 case 322 => 137 case 323 => 138 case 324 => 1 case 325 => 2 case 326 => 139 case _ => 140 }
    else if q < 336 then match q { case 328 => 141 case 329 => 143 case 330 => 1 case 331 => 6 case 332 => 144 case 333 => 145 case 334 => 1 case _ => 18 }
    else if q < 344 then match q { case 336 => 1 case 337 => 5 case 338 => 1 case 339 => 3 case 340 => 147 case 341 => 149 case 342 => 148 case _ => 159 }
    else if q < 352 then match q { case 344 => 150 case 345 => 151 case 346 => 1 case 347 => 8 case 348 => 152 case 349 => 155 case 350 => 66 case _ => 1 }
    else if q < 360 then match q { case 352 => 1 case 353 => 12 case 354 => 153 case 355 => 161 case 356 => 1 case 357 => 5 case 358 => 1 case _ => 3 }
    else if q < 368 then match q { case 360 => 154 case 361 => 156 case 362 => 157 case 363 => 158 case 364 => 160 case 365 => 163 case 366 => 1 case _ => 7 }
    else if q < 376 then match q { case 368 => 164 case 369 => 169 case 370 => 1 case 371 => 9 case 372 => 1 case 373 => 3 case 374 => 165 case _ => 166 }
    else match q { case 376 => 167 case 377 => 172 case 378 => 168 case 379 => 174 case 380 => 170 case 381 => 173 case 382 => 1 case _ => 27 }
  }

  function LextableD(q: nat): nat {
    if q < 392 then match q { case 384 => 1 case 385 => 42 case 386 => 171 case 387 => 206 case 388 => 1 case 389 => 9 case 390 => 175 case _ => 180 }
    else if q < 400 then match q { case 392 => 1 case 393 => 39 case 394 => 1 case 395 => 5 case 396 => 176 case 397 => 177 case 398 => 1 case _ => 7 }
    else if q < 408 then match q { case 400 => 1 case 401 => 5 case 402 => 178 case 403 => 181 case 404 => 179 case 405 => 209 case 406 => 182 case _ => 183 }
    else if q < 416 then match q { case 408 => 184 case 409 => 194 case 410 => 185 case 411 => 186 case 412 => 1 case 413 => 4 case 414 => 187 case _ => 189 }
    else if q < 424 then match q { case 416 => 1 case 417 => 7 case 418 => 188 case 419 => 191 case 420 => 190 case 421 => 196 case 422 => 1 case _ => 13 }
    else if q < 432 then match q { case 424 => 1 case 425 => 10 case 426 => 1 case 427 => 8 case 428 => 192 case 429 => 193 case 430 => 197 case _ => 231 }
    else if q < 440 then match q { case 432 => 1 case 433 => 27 case 434 => 198 case 435 => 228 case 436 => 27 case 437 => 1 case 438 => 1 case _ => 25 }
    else if q < 448 then match q { case 440 => 199 case 441 => 207 case 442 => 200 case 443 => 201 case 444 => 1 case 445 => 6 case 446 => 202 case _ => 205 }
    else if q < 456 then match q { case 448 => 13 case 449 => 1 case 450 => 23 case 451 => 1 case 452 => 255 case 453 => 1 case 454 => 203 case _ => 204 }
    else if q < 464 then match q { case 456 => 210 case 457 => 213 case 458 => 1 case 459 => 20 case 460 => 1 case 461 => 9 case 462 => 1 case _ => 2 }
    else if q < 472 then match q { case 464 => 211 case 465 => 212 case 466 => 214 case 467 => 221 case 468 => 215 case 469 => 225 case 470 => 1 case _ => 7 }
    else if q < 480 then match q { case 472 => 216 case 473 => 217 case 474 => 1 case 475 => 9 case 476 => 218 case 477 => 219 case 478 => 1 case _ => 8 }
    else if q < 488 then match q { case 480 => 222 case 481 => 223 case 482 => 224 case 483 => 226 case 484 => 227 case 485 => 229 case 486 => 232 case _ => 233 }
    else if q < 496 then match q { case 488 => 234 case 489 => 235 case 490 => 236 case 491 => 237 case 492 => 238 case 493 => 240 case 494 => 241 case _ => 244 }
    else if q < 504 then match q { case 496 => 242 case 497 => 243 case 498 => 1 case 499 => 4 case 500 => 1 case 501 => 2 case 502 => 245 case _ => 246 }
    else match q { case 504 => 247 case 505 => 248 case 506 => 1 case 507 => 2 case 508 => 250 case 509 => 251 case 510 => 252 case _ => 253 }
  }

  /** `lextable_terms`: one bit for each place of `lextable`. */
  function LextableTerms(i: nat): nat {
    if i < 8 then match i { case 0 => 0 case 1 => 0 case 2 => 0 case 3 => 3 case 4 => 1 case 5 => 0 case 6 => 3 case _ => 0 }
    else if i < 16 then match i { case 8 => 52 case 9 => 15 case 10 => 67 case 11 => 3 case 12 => 241 case 13 => 60 case 14 => 252 case _ => 60 }
    else if i < 24 then match i { case 16 => 15 case 17 => 48 case 18 => 55 case 19 => 247 case 20 => 15 case 21 => 195 case 22 => 207 case _ => 3 }
    else if i < 32 then match i { case 24 => 60 case 25 => 252 case 26 => 192 case 27 => 243 case 28 => 240 case 29 => 60 case 30 => 252 case _ => 240 }
    else if i < 40 then match i { case 32 => 207 case 33 => 252 case 34 => 204 case 35 => 255 case 36 => 252 case 37 => 13 case 38 => 52 case _ => 204 }
    else if i < 48 then match i { case 40 => 207 case 41 => 51 case 42 => 240 case 43 => 51 case 44 => 12 case 45 => 63 case 46 => 195 case _ => 63 }
    else if i < 56 then match i { case 48 => 204 case 49 => 48 case 50 => 252 case 51 => 207 case 52 => 60 case 53 => 240 case 54 => 12 case _ => 207 }
    else match i { case 56 => 208 case 57 => 3 case 58 => 63 case 59 => 51 case 60 => 255 case 61 => 255 case 62 => 195 case _ => 243 }
  }

  /** The place of 0x100, the end of a string, is marked like that of 0. */
  const HUFTABLE_0X100_PREV := 118

  /** The code of symbol `s`, 256 being the end of a string. */
  function Code(s: nat): nat {
    if s < 128 then CodeA(s)
    else CodeB(s)
  }

  function CodeA(s: nat): nat {
    if s < 8 then match s { case 0 => 0x1ff8 case 1 => 0x7fffd8 case 2 => 0xfffffe2 case 3 => 0xfffffe3 case 4 => 0xfffffe4 case 5 => 0xfffffe5 case 6 => 0xfffffe6 case _ => 0xfffffe7 }
    else if s < 16 then match s { case 8 => 0xfffffe8 case 9 => 0xffffea case 10 => 0x3ffffffc case 11 => 0xfffffe9 case 12 => 0xfffffea case 13 => 0x3ffffffd case 14 => 0xfffffeb case _ => 0xfffffec }
    else if s < 24 then match s { case 16 => 0xfffffed case 17 => 0xfffffee case 18 => 0xfffffef case 19 => 0xffffff0 case 20 => 0xffffff1 case 21 => 0xffffff2 case 22 => 0x3ffffffe case _ => 0xffffff3 }
    else if s < 32 then match s { case 24 => 0xffffff4 case 25 => 0xffffff5 case 26 => 0xffffff6 case 27 => 0xffffff7 case 28 => 0xffffff8 case 29 => 0xffffff9 case 30 => 0xffffffa case _ => 0xffffffb }
    else if s < 40 then match s { case 32 => 0x14 case 33 => 0x3f8 case 34 => 0x3f9 case 35 => 0xffa case 36 => 0x1ff9 case 37 => 0x15 case 38 => 0xf8 case _ => 0x7fa }
    else if s < 48 then match s { case 40 => 0x3fa case 41 => 0x3fb case 42 => 0xf9 case 43 => 0x7fb case 44 => 0xfa case 45 => 0x16 case 46 => 0x17 case _ => 0x18 }
    else if s < 56 then match s { case 48 => 0 case 49 => 1 case 50 => 2 case 51 => 0x19 case 52 => 0x1a case 53 => 0x1b case 54 => 0x1c case _ => 0x1d }
    else if s < 64 then match s { case 56 => 0x1e case 57 => 0x1f case 58 => 0x5c case 59 => 0xfb case 60 => 0x7ffc case 61 => 0x20 case 62 => 0xffb case _ => 0x3fc }
    else if s < 72 then match s { case 64 => 0x1ffa case 65 => 0x21 case 66 => 0x5d case 67 => 0x5e case 68 => 0x5f case 69 => 0x60 case 70 => 0x61 case _ => 0x62 }
    else if s < 80 then match s { case 72 => 0x63 case 73 => 0x64 case 74 => 0x65 case 75 => 0x66 case 76 => 0x67 case 77 => 0x68 case 78 => 0x69 case _ => 0x6a }
    else if s < 88 then match s { case 80 => 0x6b case 81 => 0x6c case 82 => 0x6d case 83 => 0x6e case 84 => 0x6f case 85 => 0x70 case 86 => 0x71 case _ => 0x72 }
    else if s < 96 then match s { case 88 => 0xfc case 89 => 0x73 case 90 => 0xfd case 91 => 0x1ffb case 92 => 0x7fff0 case 93 => 0x1ffc case 94 => 0x3ffc case _ => 0x22 }
    else if s < 104 then match s { case 96 => 0x7ffd case 97 => 3 case 98 => 0x23 case 99 => 4 case 100 => 0x24 case 101 => 5 case 102 => 0x25 case _ => 0x26 }
    else if s < 112 then match s { case 104 => 0x27 case 105 => 6 case 106 => 0x74 case 107 => 0x75 case 108 => 0x28 case 109 => 0x29 case 110 => 0x2a case _ => 7 }
    else if s < 120 then match s { case 112 => 0x2b case 113 => 0x76 case 114 => 0x2c case 115 => 8 case 116 => 9 case 117 => 0x2d case 118 => 0x77 case _ => 0x78 }
    else match s { case 120 => 0x79 case 121 => 0x7a case 122 => 0x7b case 123 => 0x7ffe case 124 => 0x7fc case 125 => 0x3ffd case 126 => 0x1ffd case _ => 0xffffffc }
  }

  function CodeB(s: nat): nat {
    if s < 136 then match s { case 128 => 0xfffe6 case 129 => 0x3fffd2 case 130 => 0xfffe7 case 131 => 0xfffe8 case 132 => 0x3fffd3 case 133 => 0x3fffd4 case 134 => 0x3fffd5 case _ => 0x7fffd9 }
    else if s < 144 then match s { case 136 => 0x3fffd6 case 137 => 0x7fffda case 138 => 0x7fffdb case 139 => 0x7fffdc case 140 => 0x7fffdd case 141 => 0x7fffde case 142 => 0xffffeb case _ => 0x7fffdf }
    else if s < 152 then match s { case 144 => 0xffffec case 145 => 0xffffed case 146 => 0x3fffd7 case 147 => 0x7fffe0 case 148 => 0xffffee case 149 => 0x7fffe1 case 150 => 0x7fffe2 case _ => 0x7fffe3 }
    else if s < 160 then match s { case 152 => 0x7fffe4 case 153 => 0x1fffdc case 154 => 0x3fffd8 case 155 => 0x7fffe5 case 156 => 0x3fffd9 case 157 => 0x7fffe6 case 158 => 0x7fffe7 case _ => 0xffffef }
    else if s < 168 then match s { case 160 => 0x3fffda case 161 => 0x1fffdd case 162 => 0xfffe9 case 163 => 0x3fffdb case 164 => 0x3fffdc case 165 => 0x7fffe8 case 166 => 0x7fffe9 case _ => 0x1fffde }
    else if s < 176 then match s { case 168 => 0x7fffea case 169 => 0x3fffdd case 170 => 0x3fffde case 171 => 0xfffff0 case 172 => 0x1fffdf case 173 => 0x3fffdf case 174 => 0x7fffeb case _ => 0x7fffec }
    else if s < 184 then match s { case 176 => 0x1fffe0 case 177 => 0x1fffe1 case 178 => 0x3fffe0 case 179 => 0x1fffe2 case 180 => 0x7fffed case 181 => 0x3fffe1 case 182 => 0x7fffee case _ => 0x7fffef }
    else if s < 192 then match s { case 184 => 0xfffea case 185 => 0x3fffe2 case 186 => 0x3fffe3 case 187 => 0x3fffe4 case 188 => 0x7ffff0 case 189 => 0x3fffe5 case 190 => 0x3fffe6 case _ => 0x7ffff1 }
    else if s < 200 then match s { case 192 => 0x3ffffe0 case 193 => 0x3ffffe1 case 194 => 0xfffeb case 195 => 0x7fff1 case 196 => 0x3fffe7 case 197 => 0x7ffff2 case 198 => 0x3fffe8 case _ => 0x1ffffec }
    else if s < 208 then match s { case 200 => 0x3ffffe2 case 201 => 0x3ffffe3 case 202 => 0x3ffffe4 case 203 => 0x7ffffde case 204 => 0x7ffffdf case 205 => 0x3ffffe5 case 206 => 0xfffff1 case _ => 0x1ffffed }
    else if s < 216 then match s { case 208 => 0x7fff2 case 209 => 0x1fffe3 case 210 => 0x3ffffe6 case 211 => 0x7ffffe0 case 212 => 0x7ffffe1 case 213 => 0x3ffffe7 case 214 => 0x7ffffe2 case _ => 0xfffff2 }
    else if s < 224 then match s { case 216 => 0x1fffe4 case 217 => 0x1fffe5 case 218 => 0x3ffffe8 case 219 => 0x3ffffe9 case 220 => 0xffffffd case 221 => 0x7ffffe3 case 222 => 0x7ffffe4 case _ => 0x7ffffe5 }
    else if s < 232 then match s { case 224 => 0xfffec case 225 => 0xfffff3 case 226 => 0xfffed case 227 => 0x1fffe6 case 228 => 0x3fffe9 case 229 => 0x1fffe7 case 230 => 0x1fffe8 case _ => 0x7ffff3 }
    else if s < 240 then match s { case 232 => 0x3fffea case 233 => 0x3fffeb case 234 => 0x1ffffee case 235 => 0x1ffffef case 236 => 0xfffff4 case 237 => 0xfffff5 case 238 => 0x3ffffea case _ => 0x7ffff4 }
    else if s < 248 then match s { case 240 => 0x3ffffeb case 241 => 0x7ffffe6 case 242 => 0x3ffffec case 243 => 0x3ffffed case 244 => 0x7ffffe7 case 245 => 0x7ffffe8 case 246 => 0x7ffffe9 case _ => 0x7ffffea }
    else if s < 256 then match s { case 248 => 0x7ffffeb case 249 => 0xffffffe case 250 => 0x7ffffec case 251 => 0x7ffffed case 252 => 0x7ffffee case 253 => 0x7ffffef case 254 => 0x7fffff0 case _ => 0x3ffffee }
    else 0x3fffffff
  }

  /** The length of that code in bits. */
  function Length(s: nat): nat {
    if s < 128 then LengthA(s)
    else LengthB(s)
  }

  function LengthA(s: nat): nat {
    if s < 8 then match s { case 0 => 13 case 1 => 23 case 2 => 28 case 3 => 28 case 4 => 28 case 5 => 28 case 6 => 28 case _ => 28 }
    else if s < 16 then match s { case 8 => 28 case 9 => 24 case 10 => 30 case 11 => 28 case 12 => 28 case 13 => 30 case 14 => 28 case _ => 28 }
    else if s < 24 then match s { case 16 => 28 case 17 => 28 case 18 => 28 case 19 => 28 case 20 => 28 case 21 => 28 case 22 => 30 case _ => 28 }
    else if s < 32 then 28
    else if s < 40 then match s { case 32 => 6 case 33 => 10 case 34 => 10 case 35 => 12 case 36 => 13 case 37 => 6 case 38 => 8 case _ => 11 }
    else if s < 48 then match s { case 40 => 10 case 41 => 10 case 42 => 8 case 43 => 11 case 44 => 8 case 45 => 6 case 46 => 6 case _ => 6 }
    else if s < 56 then match s { case 48 => 5 case 49 => 5 case 50 => 5 case 51 => 6 case 52 => 6 case 53 => 6 case 54 => 6 case _ => 6 }
    else if s < 64 then match s { case 56 => 6 case 57 => 6 case 58 => 7 case 59 => 8 case 60 => 15 case 61 => 6 case 62 => 12 case _ => 10 }
    else if s < 72 then match s { case 64 => 13 case 65 => 6 case 66 => 7 case 67 => 7 case 68 => 7 case 69 => 7 case 70 => 7 case _ => 7 }
    else if s < 80 then 7
    else if s < 88 then 7
    else if s < 96 then match s { case 88 => 8 case 89 => 7 case 90 => 8 case 91 => 13 case 92 => 19 case 93 => 13 case 94 => 14 case _ => 6 }
    else if s < 104 then match s { case 96 => 15 case 97 => 5 case 98 => 6 case 99 => 5 case 100 => 6 case 101 => 5 case 102 => 6 case _ => 6 }
    else if s < 112 then match s { case 104 => 6 case 105 => 5 case 106 => 7 case 107 => 7 case 108 => 6 case 109 => 6 case 110 => 6 case _ => 5 }
    else if s < 120 then match s { case 112 => 6 case 113 => 7 case 114 => 6 case 115 => 5 case 116 => 5 case 117 => 6 case 118 => 7 case _ => 7 }
    else match s { case 120 => 7 case 121 => 7 case 122 => 7 case 123 => 15 case 124 => 11 case 125 => 14 case 126 => 13 case _ => 28 }
  }

  function LengthB(s: nat): nat {
    if s < 136 then match s { case 128 => 20 case 129 => 22 case 130 => 20 case 131 => 20 case 132 => 22 case 133 => 22 case 134 => 22 case _ => 23 }
    else if s < 144 then match s { case 136 => 22 case 137 => 23 case 138 => 23 case 139 => 23 case 140 => 23 case 141 => 23 case 142 => 24 case _ => 23 }
    else if s < 152 then match s { case 144 => 24 case 145 => 24 case 146 => 22 case 147 => 23 case 148 => 24 case 149 => 23 case 150 => 23 case _ => 23 }
    else if s < 160 then match s { case 152 => 23 case 153 => 21 case 154 => 22 case 155 => 23 case 156 => 22 case 157 => 23 case 158 => 23 case _ => 24 }
    else if s < 168 then match s { case 160 => 22 case 161 => 21 case 162 => 20 case 163 => 22 case 164 => 22 case 165 => 23 case 166 => 23 case _ => 21 }
    else if s < 176 then match s { case 168 => 23 case 169 => 22 case 170 => 22 case 171 => 24 case 172 => 21 case 173 => 22 case 174 => 23 case _ => 23 }
    else if s < 184 then match s { case 176 => 21 case 177 => 21 case 178 => 22 case 179 => 21 case 180 => 23 case 181 => 22 case 182 => 23 case _ => 23 }
    else if s < 192 then match s { case 184 => 20 case 185 => 22 case 186 => 22 case 187 => 22 case 188 => 23 case 189 => 22 case 190 => 22 case _ => 23 }
    else if s < 200 then match s { case 192 => 26 case 193 => 26 case 194 => 20 case 195 => 19 case 196 => 22 case 197 => 23 case 198 => 22 case _ => 25 }
    else if s < 208 then match s { case 200 => 26 case 201 => 26 case 202 => 26 case 203 => 27 case 204 => 27 case 205 => 26 case 206 => 24 case _ => 25 }
    else if s < 216 then match s { case 208 => 19 case 209 => 21 case 210 => 26 case 211 => 27 case 212 => 27 case 213 => 26 case 214 => 27 case _ => 24 }
    else if s < 224 then match s { case 216 => 21 case 217 => 21 case 218 => 26 case 219 => 26 case 220 => 28 case 221 => 27 case 222 => 27 case _ => 27 }
    else if s < 232 then match s { case 224 => 20 case 225 => 24 case 226 => 20 case 227 => 21 case 228 => 22 case 229 => 21 case 230 => 21 case _ => 23 }
    else if s < 240 then match s { case 232 => 22 case 233 => 22 case 234 => 25 case 235 => 25 case 236 => 24 case 237 => 24 case 238 => 26 case _ => 23 }
    else if s < 248 then match s { case 240 => 26 case 241 => 27 case 242 => 26 case 243 => 26 case 244 => 27 case 245 => 27 case 246 => 27 case _ => 27 }
    else if s < 256 then match s { case 248 => 27 case 249 => 28 case 250 => 27 case 251 => 27 case 252 => 27 case 253 => 27 case 254 => 27 case _ => 26 }
    else 30
  }
}
