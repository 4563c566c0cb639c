/**
 The test vector "abc" of FIPS 180-4, which the self test of src/modules/crypto/sha512.c
 uses: it takes every round, constant and rotation.
 */
module Sha512Vector {
  import opened HashStream
  import opened Sha512
  import opened Sha512Hash
  import opened Words
  import Tables = Sha512Tables

  const ABC: seq<bv8> := [0x61, 0x62, 0x63]

  // --- the message schedule ---

  // Eight words from word `t` on.
  predicate Has(block: seq<bv8>, t: nat, a: bv64, b: bv64, c: bv64, d: bv64, e: bv64, f: bv64, g: bv64, h: bv64)
    requires |block| == 128
  {
    && Schedule(block, t) == a && Schedule(block, t + 1) == b && Schedule(block, t + 2) == c
    && Schedule(block, t + 3) == d && Schedule(block, t + 4) == e && Schedule(block, t + 5) == f
    && Schedule(block, t + 6) == g && Schedule(block, t + 7) == h
  }

  lemma WordNext(block: seq<bv8>, t: nat)
    requires |block| == 128 && 16 <= t
    ensures Schedule(block, t) == Add(Add(Add(Gamma1(Schedule(block, t - 2)), Schedule(block, t - 7)),
      Gamma0(Schedule(block, t - 15))), Schedule(block, t - 16))
  {
    hide Add, Gamma0, Gamma1, Load64H;
  }

  lemma Words16(block: seq<bv8>)
    requires |block| == 128 && Has(block, 0,
      0x6162638000000000, 0x0000000000000000, 0x0000000000000000, 0x0000000000000000,
      0x0000000000000000, 0x0000000000000000, 0x0000000000000000, 0x0000000000000000)
    requires Has(block, 8,
      0x0000000000000000, 0x0000000000000000, 0x0000000000000000, 0x0000000000000000,
      0x0000000000000000, 0x0000000000000000, 0x0000000000000000, 0x0000000000000018)
    ensures Has(block, 16,
      0x6162638000000000, 0x00030000000000c0, 0x0a9699a24c700003, 0x00000c0060000603,
      0x549ef62639858996, 0x00c0003300003c00, 0x1497007a8a0e9dbc, 0x62e56500cc0780f0)
  {
    hide Schedule;
    WordNext(block, 16); WordNext(block, 17);
    WordNext(block, 18); WordNext(block, 19);
    WordNext(block, 20); WordNext(block, 21);
    WordNext(block, 22); WordNext(block, 23);
  }

  lemma Words24(block: seq<bv8>)
    requires |block| == 128 && Has(block, 8,
      0x0000000000000000, 0x0000000000000000, 0x0000000000000000, 0x0000000000000000,
      0x0000000000000000, 0x0000000000000000, 0x0000000000000000, 0x0000000000000018)
    requires Has(block, 16,
      0x6162638000000000, 0x00030000000000c0, 0x0a9699a24c700003, 0x00000c0060000603,
      0x549ef62639858996, 0x00c0003300003c00, 0x1497007a8a0e9dbc, 0x62e56500cc0780f0)
    ensures Has(block, 24,
      0x7760dd475a538797, 0xf1554b711c1c0003, 0xca2993a4345d9ff2, 0x5e0e66b5c783dd32,
      0xe25a625d00494b62, 0x9f44486fb1e4fbd2, 0xb31b8c2b06085f2f, 0x0e987660934142f6)
  {
    hide Schedule;
    WordNext(block, 24); WordNext(block, 25);
    WordNext(block, 26); WordNext(block, 27);
    WordNext(block, 28); WordNext(block, 29);
    WordNext(block, 30); WordNext(block, 31);
  }

  lemma Words32(block: seq<bv8>)
    requires |block| == 128 && Has(block, 16,
      0x6162638000000000, 0x00030000000000c0, 0x0a9699a24c700003, 0x00000c0060000603,
      0x549ef62639858996, 0x00c0003300003c00, 0x1497007a8a0e9dbc, 0x62e56500cc0780f0)
    requires Has(block, 24,
      0x7760dd475a538797, 0xf1554b711c1c0003, 0xca2993a4345d9ff2, 0x5e0e66b5c783dd32,
      0xe25a625d00494b62, 0x9f44486fb1e4fbd2, 0xb31b8c2b06085f2f, 0x0e987660934142f6)
    ensures Has(block, 32,
      0xa4af2cfd09fbb924, 0xad289e2e0bd53186, 0x3c74563aa2f9673e, 0x6ccdcd14cc14b53f,
      0xc3f925b337f22bde, 0x5bcc77a75ad95b54, 0x3ec2257adca09a52, 0x28246960001fc5eb)
  {
    hide Schedule;
    WordNext(block, 32); WordNext(block, 33);
    WordNext(block, 34); WordNext(block, 35);
    WordNext(block, 36); WordNext(block, 37);
    WordNext(block, 38); WordNext(block, 39);
  }

  lemma Words40(block: seq<bv8>)
    requires |block| == 128 && Has(block, 24,
      0x7760dd475a538797, 0xf1554b711c1c0003, 0xca2993a4345d9ff2, 0x5e0e66b5c783dd32,
      0xe25a625d00494b62, 0x9f44486fb1e4fbd2, 0xb31b8c2b06085f2f, 0x0e987660934142f6)
    requires Has(block, 32,
      0xa4af2cfd09fbb924, 0xad289e2e0bd53186, 0x3c74563aa2f9673e, 0x6ccdcd14cc14b53f,
      0xc3f925b337f22bde, 0x5bcc77a75ad95b54, 0x3ec2257adca09a52, 0x28246960001fc5eb)
    ensures Has(block, 40,
      0x04e33a75ce2be88a, 0x7d5314b3c359e0e7, 0xaef7a285ff251266, 0x0b8472581deea04f,
      0xb174e26eddc7b033, 0x5d63bae58ddd88de, 0x4c044007b744ccbb, 0xe6a9aa4d74dc7d43)
  {
    hide Schedule;
    WordNext(block, 40); WordNext(block, 41);
    WordNext(block, 42); WordNext(block, 43);
    WordNext(block, 44); WordNext(block, 45);
    WordNext(block, 46); WordNext(block, 47);
  }

  lemma Words48(block: seq<bv8>)
    requires |block| == 128 && Has(block, 32,
      0xa4af2cfd09fbb924, 0xad289e2e0bd53186, 0x3c74563aa2f9673e, 0x6ccdcd14cc14b53f,
      0xc3f925b337f22bde, 0x5bcc77a75ad95b54, 0x3ec2257adca09a52, 0x28246960001fc5eb)
    requires Has(block, 40,
      0x04e33a75ce2be88a, 0x7d5314b3c359e0e7, 0xaef7a285ff251266, 0x0b8472581deea04f,
      0xb174e26eddc7b033, 0x5d63bae58ddd88de, 0x4c044007b744ccbb, 0xe6a9aa4d74dc7d43)
    ensures Has(block, 48,
      0xebeaf1237248019c, 0x361e80b2d00f3193, 0x2e9839125df3b175, 0x3319629293ad5363,
      0x9cbc5d89ac1b89d5, 0x275e23ffeeca50b7, 0x3b80d680bf69ef58, 0x0d0696933945a125)
  {
    hide Schedule;
    WordNext(block, 48); WordNext(block, 49);
    WordNext(block, 50); WordNext(block, 51);
    WordNext(block, 52); WordNext(block, 53);
    WordNext(block, 54); WordNext(block, 55);
  }

  lemma Words56(block: seq<bv8>)
    requires |block| == 128 && Has(block, 40,
      0x04e33a75ce2be88a, 0x7d5314b3c359e0e7, 0xaef7a285ff251266, 0x0b8472581deea04f,
      0xb174e26eddc7b033, 0x5d63bae58ddd88de, 0x4c044007b744ccbb, 0xe6a9aa4d74dc7d43)
    requires Has(block, 48,
      0xebeaf1237248019c, 0x361e80b2d00f3193, 0x2e9839125df3b175, 0x3319629293ad5363,
      0x9cbc5d89ac1b89d5, 0x275e23ffeeca50b7, 0x3b80d680bf69ef58, 0x0d0696933945a125)
    ensures Has(block, 56,
      0x7533eabcb786ff00, 0xb89826cee6fbf0e5, 0x249b4fbcad623e9f, 0x4aea9df2b02d6f1e,
      0x2cc57475a55e8d8f, 0xb2574ae938d8be89, 0xc1b35a57b16d6aea, 0xcc4918b5949206bb)
  {
    hide Schedule;
    WordNext(block, 56); WordNext(block, 57);
    WordNext(block, 58); WordNext(block, 59);
    WordNext(block, 60); WordNext(block, 61);
    WordNext(block, 62); WordNext(block, 63);
  }

  lemma Words64(block: seq<bv8>)
    requires |block| == 128 && Has(block, 48,
      0xebeaf1237248019c, 0x361e80b2d00f3193, 0x2e9839125df3b175, 0x3319629293ad5363,
      0x9cbc5d89ac1b89d5, 0x275e23ffeeca50b7, 0x3b80d680bf69ef58, 0x0d0696933945a125)
    requires Has(block, 56,
      0x7533eabcb786ff00, 0xb89826cee6fbf0e5, 0x249b4fbcad623e9f, 0x4aea9df2b02d6f1e,
      0x2cc57475a55e8d8f, 0xb2574ae938d8be89, 0xc1b35a57b16d6aea, 0xcc4918b5949206bb)
    ensures Has(block, 64,
      0x5099c3add79f90ec, 0x5ea81d78e7660bf1, 0xebee6267405ac2a9, 0xb01f21926108a4ab,
      0x786433dd2fe65556, 0xc54a6eaa24a0552c, 0xb3c8f1530bdbaa9e, 0xbb8abfe56f469338)
  {
    hide Schedule;
    WordNext(block, 64); WordNext(block, 65);
    WordNext(block, 66); WordNext(block, 67);
    WordNext(block, 68); WordNext(block, 69);
    WordNext(block, 70); WordNext(block, 71);
  }

  lemma Words72(block: seq<bv8>)
    requires |block| == 128 && Has(block, 56,
      0x7533eabcb786ff00, 0xb89826cee6fbf0e5, 0x249b4fbcad623e9f, 0x4aea9df2b02d6f1e,
      0x2cc57475a55e8d8f, 0xb2574ae938d8be89, 0xc1b35a57b16d6aea, 0xcc4918b5949206bb)
    requires Has(block, 64,
      0x5099c3add79f90ec, 0x5ea81d78e7660bf1, 0xebee6267405ac2a9, 0xb01f21926108a4ab,
      0x786433dd2fe65556, 0xc54a6eaa24a0552c, 0xb3c8f1530bdbaa9e, 0xbb8abfe56f469338)
    ensures Has(block, 72,
      0xf63d4265cc1c5a78, 0xbe8355ea73129afb, 0x49e2db8ebdcfbeb5, 0x82269d4a883a3d99,
      0xfdf53df3011f362b, 0x464af5671d71c12e, 0xe449b68198ec611c, 0x92aeeed1a7bcf7d2)
  {
    hide Schedule;
    WordNext(block, 72); WordNext(block, 73);
    WordNext(block, 74); WordNext(block, 75);
    WordNext(block, 76); WordNext(block, 77);
    WordNext(block, 78); WordNext(block, 79);
  }

  // --- the rounds ---

  function AbcRounds(block: seq<bv8>, t: nat): Vars
    requires |block| == 128 && |Tables.K| == 80 && t <= 80
  {
    Rounds(ToVars(Tables.IV), block, Tables.K, t)
  }

  predicate After(block: seq<bv8>, t: nat, a: bv64, b: bv64, c: bv64, d: bv64, e: bv64, f: bv64, g: bv64, h: bv64)
    requires |block| == 128 && |Tables.K| == 80 && t <= 80
  {
    AbcRounds(block, t) == Vars(a, b, c, d, e, f, g, h)
  }

  // Round `t`, with constant `j` of row `r` and the word `w`, makes the new variables a and e.
  lemma Next(block: seq<bv8>, t: nat, r: nat, j: nat, k: bv64, w: bv64, a: bv64, e: bv64)
    requires |block| == 128 && |Tables.K| == 80 && t == 4 * r + j < 80 && j < 4
    requires Tables.Row(r)[j] == k && Schedule(block, t) == w
    requires var v := AbcRounds(block, t); Round(v, k, w) == Vars(a, v.a, v.b, v.c, e, v.e, v.f, v.g)
    ensures var v := AbcRounds(block, t); AbcRounds(block, t + 1) == Vars(a, v.a, v.b, v.c, e, v.e, v.f, v.g)
  {
    hide Round, Schedule, Tables.K, Tables.Row, Tables.IV;
    Tables.RowAt(t);
  }

  lemma Rounds4(block: seq<bv8>)
    requires |block| == 128 && |Tables.K| == 80 && Has(block, 0,
      0x6162638000000000, 0x0000000000000000, 0x0000000000000000, 0x0000000000000000,
      0x0000000000000000, 0x0000000000000000, 0x0000000000000000, 0x0000000000000000)
    requires After(block, 0,
      0x6a09e667f3bcc908, 0xbb67ae8584caa73b, 0x3c6ef372fe94f82b, 0xa54ff53a5f1d36f1,
      0x510e527fade682d1, 0x9b05688c2b3e6c1f, 0x1f83d9abfb41bd6b, 0x5be0cd19137e2179)
    ensures After(block, 4,
      0x5a83cb3e80050e82, 0xebcffc07203d91f3, 0x1320f8c9fb872cc0, 0xf6afceb8bcfcddf5,
      0x0b47b4bb1928990e, 0xdfa9b239f2697812, 0xc3d4ebfd48650ffa, 0x58cb02347ab51f91)
  {
    hide Schedule, AbcRounds, Tables.K;
    Next(block, 0, 0, 0, 0x428a2f98d728ae22, 0x6162638000000000, 0xf6afceb8bcfcddf5, 0x58cb02347ab51f91);
    Next(block, 1, 0, 1, 0x7137449123ef65cd, 0x0000000000000000, 0x1320f8c9fb872cc0, 0xc3d4ebfd48650ffa);
    Next(block, 2, 0, 2, 0xb5c0fbcfec4d3b2f, 0x0000000000000000, 0xebcffc07203d91f3, 0xdfa9b239f2697812);
    Next(block, 3, 0, 3, 0xe9b5dba58189dbbc, 0x0000000000000000, 0x5a83cb3e80050e82, 0x0b47b4bb1928990e);
  }

  lemma Rounds8(block: seq<bv8>)
    requires |block| == 128 && |Tables.K| == 80 && Has(block, 0,
      0x6162638000000000, 0x0000000000000000, 0x0000000000000000, 0x0000000000000000,
      0x0000000000000000, 0x0000000000000000, 0x0000000000000000, 0x0000000000000000)
    requires After(block, 4,
      0x5a83cb3e80050e82, 0xebcffc07203d91f3, 0x1320f8c9fb872cc0, 0xf6afceb8bcfcddf5,
      0x0b47b4bb1928990e, 0xdfa9b239f2697812, 0xc3d4ebfd48650ffa, 0x58cb02347ab51f91)
    ensures After(block, 8,
      0x8093d195e0054fa3, 0xc4875b0c7abc076b, 0xaf573b02403e89cd, 0xb680953951604860,
      0x86f67263a0f0ec0a, 0x5a6c781f54dcc00c, 0x96f60209b6dc35ba, 0x745aca4a342ed2e2)
  {
    hide Schedule, AbcRounds, Tables.K;
    Next(block, 4, 1, 0, 0x3956c25bf348b538, 0x0000000000000000, 0xb680953951604860, 0x745aca4a342ed2e2);
    Next(block, 5, 1, 1, 0x59f111f1b605d019, 0x0000000000000000, 0xaf573b02403e89cd, 0x96f60209b6dc35ba);
    Next(block, 6, 1, 2, 0x923f82a4af194f9b, 0x0000000000000000, 0xc4875b0c7abc076b, 0x5a6c781f54dcc00c);
    Next(block, 7, 1, 3, 0xab1c5ed5da6d8118, 0x0000000000000000, 0x8093d195e0054fa3, 0x86f67263a0f0ec0a);
  }

  lemma Rounds12(block: seq<bv8>)
    requires |block| == 128 && |Tables.K| == 80 && Has(block, 8,
      0x0000000000000000, 0x0000000000000000, 0x0000000000000000, 0x0000000000000000,
      0x0000000000000000, 0x0000000000000000, 0x0000000000000000, 0x0000000000000018)
    requires After(block, 8,
      0x8093d195e0054fa3, 0xc4875b0c7abc076b, 0xaf573b02403e89cd, 0xb680953951604860,
      0x86f67263a0f0ec0a, 0x5a6c781f54dcc00c, 0x96f60209b6dc35ba, 0x745aca4a342ed2e2)
    ensures After(block, 12,
      0xdb0a9963f80c2eaa, 0x69854c4aa0f25b59, 0x81782d4a5db48f03, 0xf1eca5544cb89225,
      0x475975b91a7a462c, 0xd375471bde1ba3f4, 0x00091f460be46c52, 0xd0403c398fc40002)
  {
    hide Schedule, AbcRounds, Tables.K;
    Next(block, 8, 2, 0, 0xd807aa98a3030242, 0x0000000000000000, 0xf1eca5544cb89225, 0xd0403c398fc40002);
    Next(block, 9, 2, 1, 0x12835b0145706fbe, 0x0000000000000000, 0x81782d4a5db48f03, 0x00091f460be46c52);
    Next(block, 10, 2, 2, 0x243185be4ee4b28c, 0x0000000000000000, 0x69854c4aa0f25b59, 0xd375471bde1ba3f4);
    Next(block, 11, 2, 3, 0x550c7dc3d5ffb4e2, 0x0000000000000000, 0xdb0a9963f80c2eaa, 0x475975b91a7a462c);
  }

  lemma Rounds16(block: seq<bv8>)
    requires |block| == 128 && |Tables.K| == 80 && Has(block, 8,
      0x0000000000000000, 0x0000000000000000, 0x0000000000000000, 0x0000000000000000,
      0x0000000000000000, 0x0000000000000000, 0x0000000000000000, 0x0000000000000018)
    requires After(block, 12,
      0xdb0a9963f80c2eaa, 0x69854c4aa0f25b59, 0x81782d4a5db48f03, 0xf1eca5544cb89225,
      0x475975b91a7a462c, 0xd375471bde1ba3f4, 0x00091f460be46c52, 0xd0403c398fc40002)
    ensures After(block, 16,
      0x0ae07c86b1181c75, 0xfa967eed85a08028, 0x44249631255d2ca0, 0x5e41214388186c14,
      0xa77b7c035dd4c161, 0x874bfe5f6aae9f2f, 0x860acf9effba6f61, 0xcdf3bff2883fc9d9)
  {
    hide Schedule, AbcRounds, Tables.K;
    Next(block, 12, 3, 0, 0x72be5d74f27b896f, 0x0000000000000000, 0x5e41214388186c14, 0xcdf3bff2883fc9d9);
    Next(block, 13, 3, 1, 0x80deb1fe3b1696b1, 0x0000000000000000, 0x44249631255d2ca0, 0x860acf9effba6f61);
    Next(block, 14, 3, 2, 0x9bdc06a725c71235, 0x0000000000000000, 0xfa967eed85a08028, 0x874bfe5f6aae9f2f);
    Next(block, 15, 3, 3, 0xc19bf174cf692694, 0x0000000000000018, 0x0ae07c86b1181c75, 0xa77b7c035dd4c161);
  }

  lemma Rounds20(block: seq<bv8>)
    requires |block| == 128 && |Tables.K| == 80 && Has(block, 16,
      0x6162638000000000, 0x00030000000000c0, 0x0a9699a24c700003, 0x00000c0060000603,
      0x549ef62639858996, 0x00c0003300003c00, 0x1497007a8a0e9dbc, 0x62e56500cc0780f0)
    requires After(block, 16,
      0x0ae07c86b1181c75, 0xfa967eed85a08028, 0x44249631255d2ca0, 0x5e41214388186c14,
      0xa77b7c035dd4c161, 0x874bfe5f6aae9f2f, 0x860acf9effba6f61, 0xcdf3bff2883fc9d9)
    ensures After(block, 20,
      0x9a3fb4d38ab6cf06, 0x3c4b4104168e3edb, 0x4725be249ad19e6b, 0xcaf81a425d800537,
      0xf14998dd5f70767e, 0x29695fd88d81dbd0, 0xf47e8353f8047455, 0x2deecc6b39d64d78)
  {
    hide Schedule, AbcRounds, Tables.K;
    Next(block, 16, 4, 0, 0xe49b69c19ef14ad2, 0x6162638000000000, 0xcaf81a425d800537, 0x2deecc6b39d64d78);
    Next(block, 17, 4, 1, 0xefbe4786384f25e3, 0x00030000000000c0, 0x4725be249ad19e6b, 0xf47e8353f8047455);
    Next(block, 18, 4, 2, 0x0fc19dc68b8cd5b5, 0x0a9699a24c700003, 0x3c4b4104168e3edb, 0x29695fd88d81dbd0);
    Next(block, 19, 4, 3, 0x240ca1cc77ac9c65, 0x00000c0060000603, 0x9a3fb4d38ab6cf06, 0xf14998dd5f70767e);
  }

  lemma Rounds24(block: seq<bv8>)
    requires |block| == 128 && |Tables.K| == 80 && Has(block, 16,
      0x6162638000000000, 0x00030000000000c0, 0x0a9699a24c700003, 0x00000c0060000603,
      0x549ef62639858996, 0x00c0003300003c00, 0x1497007a8a0e9dbc, 0x62e56500cc0780f0)
    requires After(block, 20,
      0x9a3fb4d38ab6cf06, 0x3c4b4104168e3edb, 0x4725be249ad19e6b, 0xcaf81a425d800537,
      0xf14998dd5f70767e, 0x29695fd88d81dbd0, 0xf47e8353f8047455, 0x2deecc6b39d64d78)
    ensures After(block, 24,
      0x4f6877b58fe55484, 0x3e2644567b709a78, 0xda34d6673d452dcf, 0x8dc5ae65569d3855,
      0xc66005f87db55233, 0x0ac2b11da8f571c6, 0x8e30ff09ad488753, 0x4bb9e66d1145bfdc)
  {
    hide Schedule, AbcRounds, Tables.K;
    Next(block, 20, 5, 0, 0x2de92c6f592b0275, 0x549ef62639858996, 0x8dc5ae65569d3855, 0x4bb9e66d1145bfdc);
    Next(block, 21, 5, 1, 0x4a7484aa6ea6e483, 0x00c0003300003c00, 0xda34d6673d452dcf, 0x8e30ff09ad488753);
    Next(block, 22, 5, 2, 0x5cb0a9dcbd41fbd4, 0x1497007a8a0e9dbc, 0x3e2644567b709a78, 0x0ac2b11da8f571c6);
    Next(block, 23, 5, 3, 0x76f988da831153b5, 0x62e56500cc0780f0, 0x4f6877b58fe55484, 0xc66005f87db55233);
  }

  lemma Rounds28(block: seq<bv8>)
    requires |block| == 128 && |Tables.K| == 80 && Has(block, 24,
      0x7760dd475a538797, 0xf1554b711c1c0003, 0xca2993a4345d9ff2, 0x5e0e66b5c783dd32,
      0xe25a625d00494b62, 0x9f44486fb1e4fbd2, 0xb31b8c2b06085f2f, 0x0e987660934142f6)
    requires After(block, 24,
      0x4f6877b58fe55484, 0x3e2644567b709a78, 0xda34d6673d452dcf, 0x8dc5ae65569d3855,
      0xc66005f87db55233, 0x0ac2b11da8f571c6, 0x8e30ff09ad488753, 0x4bb9e66d1145bfdc)
    ensures After(block, 28,
      0xeab4a9e5771b8d09, 0x884c3bc27bc4f941, 0x0bc5f791f8e6816b, 0x9aff71163fa3a940,
      0x09068a4e255a0dac, 0xe6e48c9a8e948365, 0x6ddf1fd7edcce336, 0xd3ecf13769180e6f)
  {
    hide Schedule, AbcRounds, Tables.K;
    Next(block, 24, 6, 0, 0x983e5152ee66dfab, 0x7760dd475a538797, 0x9aff71163fa3a940, 0xd3ecf13769180e6f);
    Next(block, 25, 6, 1, 0xa831c66d2db43210, 0xf1554b711c1c0003, 0x0bc5f791f8e6816b, 0x6ddf1fd7edcce336);
    Next(block, 26, 6, 2, 0xb00327c898fb213f, 0xca2993a4345d9ff2, 0x884c3bc27bc4f941, 0xe6e48c9a8e948365);
    Next(block, 27, 6, 3, 0xbf597fc7beef0ee4, 0x5e0e66b5c783dd32, 0xeab4a9e5771b8d09, 0x09068a4e255a0dac);
  }

  lemma Rounds32(block: seq<bv8>)
    requires |block| == 128 && |Tables.K| == 80 && Has(block, 24,
      0x7760dd475a538797, 0xf1554b711c1c0003, 0xca2993a4345d9ff2, 0x5e0e66b5c783dd32,
      0xe25a625d00494b62, 0x9f44486fb1e4fbd2, 0xb31b8c2b06085f2f, 0x0e987660934142f6)
    requires After(block, 28,
      0xeab4a9e5771b8d09, 0x884c3bc27bc4f941, 0x0bc5f791f8e6816b, 0x9aff71163fa3a940,
      0x09068a4e255a0dac, 0xe6e48c9a8e948365, 0x6ddf1fd7edcce336, 0xd3ecf13769180e6f)
    ensures After(block, 32,
      0xff4d3f1f0d46a736, 0x4c4fbbb75f1873a6, 0x74bf40f869094c63, 0xe62349090f47d30a,
      0x3cd388e119e8162e, 0x73e025d91b9efea3, 0xf0aec2fe1437f085, 0x0fcdf99710f21584)
  {
    hide Schedule, AbcRounds, Tables.K;
    Next(block, 28, 7, 0, 0xc6e00bf33da88fc2, 0xe25a625d00494b62, 0xe62349090f47d30a, 0x0fcdf99710f21584);
    Next(block, 29, 7, 1, 0xd5a79147930aa725, 0x9f44486fb1e4fbd2, 0x74bf40f869094c63, 0xf0aec2fe1437f085);
    Next(block, 30, 7, 2, 0x06ca6351e003826f, 0xb31b8c2b06085f2f, 0x4c4fbbb75f1873a6, 0x73e025d91b9efea3);
    Next(block, 31, 7, 3, 0x142929670a0e6e70, 0x0e987660934142f6, 0xff4d3f1f0d46a736, 0x3cd388e119e8162e);
  }

  lemma Rounds36(block: seq<bv8>)
    requires |block| == 128 && |Tables.K| == 80 && Has(block, 32,
      0xa4af2cfd09fbb924, 0xad289e2e0bd53186, 0x3c74563aa2f9673e, 0x6ccdcd14cc14b53f,
      0xc3f925b337f22bde, 0x5bcc77a75ad95b54, 0x3ec2257adca09a52, 0x28246960001fc5eb)
    requires After(block, 32,
      0xff4d3f1f0d46a736, 0x4c4fbbb75f1873a6, 0x74bf40f869094c63, 0xe62349090f47d30a,
      0x3cd388e119e8162e, 0x73e025d91b9efea3, 0xf0aec2fe1437f085, 0x0fcdf99710f21584)
    ensures After(block, 36,
      0x1a081afc59fdbc2c, 0x2c59ec7743632621, 0x60d4e6995ed91fe6, 0xa0509015ca08c8d4,
      0xf098082f502b44cd, 0x0fbae670fa780fd3, 0xefabbd8bf47c041a, 0xe1034573654a106f)
  {
    hide Schedule, AbcRounds, Tables.K;
    Next(block, 32, 8, 0, 0x27b70a8546d22ffc, 0xa4af2cfd09fbb924, 0xa0509015ca08c8d4, 0xe1034573654a106f);
    Next(block, 33, 8, 1, 0x2e1b21385c26c926, 0xad289e2e0bd53186, 0x60d4e6995ed91fe6, 0xefabbd8bf47c041a);
    Next(block, 34, 8, 2, 0x4d2c6dfc5ac42aed, 0x3c74563aa2f9673e, 0x2c59ec7743632621, 0x0fbae670fa780fd3);
    Next(block, 35, 8, 3, 0x53380d139d95b3df, 0x6ccdcd14cc14b53f, 0x1a081afc59fdbc2c, 0xf098082f502b44cd);
  }

  lemma Rounds40(block: seq<bv8>)
    requires |block| == 128 && |Tables.K| == 80 && Has(block, 32,
      0xa4af2cfd09fbb924, 0xad289e2e0bd53186, 0x3c74563aa2f9673e, 0x6ccdcd14cc14b53f,
      0xc3f925b337f22bde, 0x5bcc77a75ad95b54, 0x3ec2257adca09a52, 0x28246960001fc5eb)
    requires After(block, 36,
      0x1a081afc59fdbc2c, 0x2c59ec7743632621, 0x60d4e6995ed91fe6, 0xa0509015ca08c8d4,
      0xf098082f502b44cd, 0x0fbae670fa780fd3, 0xefabbd8bf47c041a, 0xe1034573654a106f)
    ensures After(block, 40,
      0x8e01e125b855d225, 0xb3bb8542b3376de5, 0x002bb8e4cd989567, 0x88df85b0bbe77514,
      0x0c710a47ba6a567b, 0xb49596c20feba7de, 0x66adcfa249ac7bbd, 0x8fbfd0162bbf4675)
  {
    hide Schedule, AbcRounds, Tables.K;
    Next(block, 36, 9, 0, 0x650a73548baf63de, 0xc3f925b337f22bde, 0x88df85b0bbe77514, 0x8fbfd0162bbf4675);
    Next(block, 37, 9, 1, 0x766a0abb3c77b2a8, 0x5bcc77a75ad95b54, 0x002bb8e4cd989567, 0x66adcfa249ac7bbd);
    Next(block, 38, 9, 2, 0x81c2c92e47edaee6, 0x3ec2257adca09a52, 0xb3bb8542b3376de5, 0xb49596c20feba7de);
    Next(block, 39, 9, 3, 0x92722c851482353b, 0x28246960001fc5eb, 0x8e01e125b855d225, 0x0c710a47ba6a567b);
  }

  lemma Rounds44(block: seq<bv8>)
    requires |block| == 128 && |Tables.K| == 80 && Has(block, 40,
      0x04e33a75ce2be88a, 0x7d5314b3c359e0e7, 0xaef7a285ff251266, 0x0b8472581deea04f,
      0xb174e26eddc7b033, 0x5d63bae58ddd88de, 0x4c044007b744ccbb, 0xe6a9aa4d74dc7d43)
    requires After(block, 40,
      0x8e01e125b855d225, 0xb3bb8542b3376de5, 0x002bb8e4cd989567, 0x88df85b0bbe77514,
      0x0c710a47ba6a567b, 0xb49596c20feba7de, 0x66adcfa249ac7bbd, 0x8fbfd0162bbf4675)
    ensures After(block, 44,
      0x35d7e7f41defcbd5, 0xbc05ba8de5d3c480, 0xe96f89dd48cbd851, 0xb01521dd6a6be12c,
      0xcc5100997f5710f2, 0x639cb938e14dc190, 0xf0996439e7b50cb1, 0x169008b3a4bb170b)
  {
    hide Schedule, AbcRounds, Tables.K;
    Next(block, 40, 10, 0, 0xa2bfe8a14cf10364, 0x04e33a75ce2be88a, 0xb01521dd6a6be12c, 0x169008b3a4bb170b);
    Next(block, 41, 10, 1, 0xa81a664bbc423001, 0x7d5314b3c359e0e7, 0xe96f89dd48cbd851, 0xf0996439e7b50cb1);
    Next(block, 42, 10, 2, 0xc24b8b70d0f89791, 0xaef7a285ff251266, 0xbc05ba8de5d3c480, 0x639cb938e14dc190);
    Next(block, 43, 10, 3, 0xc76c51a30654be30, 0x0b8472581deea04f, 0x35d7e7f41defcbd5, 0xcc5100997f5710f2);
  }

  lemma Rounds48(block: seq<bv8>)
    requires |block| == 128 && |Tables.K| == 80 && Has(block, 40,
      0x04e33a75ce2be88a, 0x7d5314b3c359e0e7, 0xaef7a285ff251266, 0x0b8472581deea04f,
      0xb174e26eddc7b033, 0x5d63bae58ddd88de, 0x4c044007b744ccbb, 0xe6a9aa4d74dc7d43)
    requires After(block, 44,
      0x35d7e7f41defcbd5, 0xbc05ba8de5d3c480, 0xe96f89dd48cbd851, 0xb01521dd6a6be12c,
      0xcc5100997f5710f2, 0x639cb938e14dc190, 0xf0996439e7b50cb1, 0x169008b3a4bb170b)
    ensures After(block, 48,
      0x6b69fc1bb482feac, 0xf61e672694de2d67, 0x021fbadbabab5ac6, 0xc47c9d5c7ea8a234,
      0x35264334c03ac8ad, 0xc6bc35740d8daa9a, 0xe95c2a57572d64d9, 0x858d832ae0e8911c)
  {
    hide Schedule, AbcRounds, Tables.K;
    Next(block, 44, 11, 0, 0xd192e819d6ef5218, 0xb174e26eddc7b033, 0xc47c9d5c7ea8a234, 0x858d832ae0e8911c);
    Next(block, 45, 11, 1, 0xd69906245565a910, 0x5d63bae58ddd88de, 0x021fbadbabab5ac6, 0xe95c2a57572d64d9);
    Next(block, 46, 11, 2, 0xf40e35855771202a, 0x4c044007b744ccbb, 0xf61e672694de2d67, 0xc6bc35740d8daa9a);
    Next(block, 47, 11, 3, 0x106aa07032bbd1b8, 0xe6a9aa4d74dc7d43, 0x6b69fc1bb482feac, 0x35264334c03ac8ad);
  }

  lemma Rounds52(block: seq<bv8>)
    requires |block| == 128 && |Tables.K| == 80 && Has(block, 48,
      0xebeaf1237248019c, 0x361e80b2d00f3193, 0x2e9839125df3b175, 0x3319629293ad5363,
      0x9cbc5d89ac1b89d5, 0x275e23ffeeca50b7, 0x3b80d680bf69ef58, 0x0d0696933945a125)
    requires After(block, 48,
      0x6b69fc1bb482feac, 0xf61e672694de2d67, 0x021fbadbabab5ac6, 0xc47c9d5c7ea8a234,
      0x35264334c03ac8ad, 0xc6bc35740d8daa9a, 0xe95c2a57572d64d9, 0x858d832ae0e8911c)
    ensures After(block, 52,
      0xd43f83727325dd77, 0x813a43dd2c502043, 0xca9bd862c5050918, 0x571f323d96b3a047,
      0x483f80a82eaee23e, 0x07a0d8ef821c5e1a, 0xdfe091dab182e645, 0x271580ed6c3e5650)
  {
    hide Schedule, AbcRounds, Tables.K;
    Next(block, 48, 12, 0, 0x19a4c116b8d2d0c8, 0xebeaf1237248019c, 0x571f323d96b3a047, 0x271580ed6c3e5650);
    Next(block, 49, 12, 1, 0x1e376c085141ab53, 0x361e80b2d00f3193, 0xca9bd862c5050918, 0xdfe091dab182e645);
    Next(block, 50, 12, 2, 0x2748774cdf8eeb99, 0x2e9839125df3b175, 0x813a43dd2c502043, 0x07a0d8ef821c5e1a);
    Next(block, 51, 12, 3, 0x34b0bcb5e19b48a8, 0x3319629293ad5363, 0xd43f83727325dd77, 0x483f80a82eaee23e);
  }

  lemma Rounds56(block: seq<bv8>)
    requires |block| == 128 && |Tables.K| == 80 && Has(block, 48,
      0xebeaf1237248019c, 0x361e80b2d00f3193, 0x2e9839125df3b175, 0x3319629293ad5363,
      0x9cbc5d89ac1b89d5, 0x275e23ffeeca50b7, 0x3b80d680bf69ef58, 0x0d0696933945a125)
    requires After(block, 52,
      0xd43f83727325dd77, 0x813a43dd2c502043, 0xca9bd862c5050918, 0x571f323d96b3a047,
      0x483f80a82eaee23e, 0x07a0d8ef821c5e1a, 0xdfe091dab182e645, 0x271580ed6c3e5650)
    ensures After(block, 56,
      0x63b460e42748817e, 0xf650857b5babda4d, 0xd63f68037ddf06aa, 0x03df11b32d42e203,
      0xc6b4dd2a9931c509, 0x9ccfb31a86df0f86, 0xa6781efe1aa1ce02, 0x504f94e40591cffa)
  {
    hide Schedule, AbcRounds, Tables.K;
    Next(block, 52, 13, 0, 0x391c0cb3c5c95a63, 0x9cbc5d89ac1b89d5, 0x03df11b32d42e203, 0x504f94e40591cffa);
    Next(block, 53, 13, 1, 0x4ed8aa4ae3418acb, 0x275e23ffeeca50b7, 0xd63f68037ddf06aa, 0xa6781efe1aa1ce02);
    Next(block, 54, 13, 2, 0x5b9cca4f7763e373, 0x3b80d680bf69ef58, 0xf650857b5babda4d, 0x9ccfb31a86df0f86);
    Next(block, 55, 13, 3, 0x682e6ff3d6b2b8a3, 0x0d0696933945a125, 0x63b460e42748817e, 0xc6b4dd2a9931c509);
  }

  lemma Rounds60(block: seq<bv8>)
    requires |block| == 128 && |Tables.K| == 80 && Has(block, 56,
      0x7533eabcb786ff00, 0xb89826cee6fbf0e5, 0x249b4fbcad623e9f, 0x4aea9df2b02d6f1e,
      0x2cc57475a55e8d8f, 0xb2574ae938d8be89, 0xc1b35a57b16d6aea, 0xcc4918b5949206bb)
    requires After(block, 56,
      0x63b460e42748817e, 0xf650857b5babda4d, 0xd63f68037ddf06aa, 0x03df11b32d42e203,
      0xc6b4dd2a9931c509, 0x9ccfb31a86df0f86, 0xa6781efe1aa1ce02, 0x504f94e40591cffa)
    ensures After(block, 60,
      0x2c074484ef1eac8c, 0x581ecb3355dcd9b8, 0x4b81c3aec976ea4b, 0x7a52912943d52b05,
      0x4797cde4ed370692, 0x6a3c9b0f71c8bf36, 0x70505988124351ac, 0xd2e89bbd91e00be0)
  {
    hide Schedule, AbcRounds, Tables.K;
    Next(block, 56, 14, 0, 0x748f82ee5defb2fc, 0x7533eabcb786ff00, 0x7a52912943d52b05, 0xd2e89bbd91e00be0);
    Next(block, 57, 14, 1, 0x78a5636f43172f60, 0xb89826cee6fbf0e5, 0x4b81c3aec976ea4b, 0x70505988124351ac);
    Next(block, 58, 14, 2, 0x84c87814a1f0ab72, 0x249b4fbcad623e9f, 0x581ecb3355dcd9b8, 0x6a3c9b0f71c8bf36);
    Next(block, 59, 14, 3, 0x8cc702081a6439ec, 0x4aea9df2b02d6f1e, 0x2c074484ef1eac8c, 0x4797cde4ed370692);
  }

  lemma Rounds64(block: seq<bv8>)
    requires |block| == 128 && |Tables.K| == 80 && Has(block, 56,
      0x7533eabcb786ff00, 0xb89826cee6fbf0e5, 0x249b4fbcad623e9f, 0x4aea9df2b02d6f1e,
      0x2cc57475a55e8d8f, 0xb2574ae938d8be89, 0xc1b35a57b16d6aea, 0xcc4918b5949206bb)
    requires After(block, 60,
      0x2c074484ef1eac8c, 0x581ecb3355dcd9b8, 0x4b81c3aec976ea4b, 0x7a52912943d52b05,
      0x4797cde4ed370692, 0x6a3c9b0f71c8bf36, 0x70505988124351ac, 0xd2e89bbd91e00be0)
    ensures After(block, 64,
      0xab44e86276478d85, 0xa81dedbb9f19e643, 0xcfcd928c5424e2b6, 0x3857dfd2fc37d3ba,
      0xcd881ee59ca6bc53, 0x84058865d60a05fa, 0x09aee5bda1644de5, 0xa6af4e9c9f807e51)
  {
    hide Schedule, AbcRounds, Tables.K;
    Next(block, 60, 15, 0, 0x90befffa23631e28, 0x2cc57475a55e8d8f, 0x3857dfd2fc37d3ba, 0xa6af4e9c9f807e51);
    Next(block, 61, 15, 1, 0xa4506cebde82bde9, 0xb2574ae938d8be89, 0xcfcd928c5424e2b6, 0x09aee5bda1644de5);
    Next(block, 62, 15, 2, 0xbef9a3f7b2c67915, 0xc1b35a57b16d6aea, 0xa81dedbb9f19e643, 0x84058865d60a05fa);
    Next(block, 63, 15, 3, 0xc67178f2e372532b, 0xcc4918b5949206bb, 0xab44e86276478d85, 0xcd881ee59ca6bc53);
  }

  lemma Rounds68(block: seq<bv8>)
    requires |block| == 128 && |Tables.K| == 80 && Has(block, 64,
      0x5099c3add79f90ec, 0x5ea81d78e7660bf1, 0xebee6267405ac2a9, 0xb01f21926108a4ab,
      0x786433dd2fe65556, 0xc54a6eaa24a0552c, 0xb3c8f1530bdbaa9e, 0xbb8abfe56f469338)
    requires After(block, 64,
      0xab44e86276478d85, 0xa81dedbb9f19e643, 0xcfcd928c5424e2b6, 0x3857dfd2fc37d3ba,
      0xcd881ee59ca6bc53, 0x84058865d60a05fa, 0x09aee5bda1644de5, 0xa6af4e9c9f807e51)
    ensures After(block, 68,
      0x54ba35cf56a0340e, 0x46c4210ab2cc155d, 0xeeb9c21bb0102598, 0x5a806d7e9821a501,
      0x1c66f46d95690bcf, 0x29fab5a7bff53366, 0x3b5fed0d6a1f96e1, 0xaa84b086688a5c45)
  {
    hide Schedule, AbcRounds, Tables.K;
    Next(block, 64, 16, 0, 0xca273eceea26619c, 0x5099c3add79f90ec, 0x5a806d7e9821a501, 0xaa84b086688a5c45);
    Next(block, 65, 16, 1, 0xd186b8c721c0c207, 0x5ea81d78e7660bf1, 0xeeb9c21bb0102598, 0x3b5fed0d6a1f96e1);
    Next(block, 66, 16, 2, 0xeada7dd6cde0eb1e, 0xebee6267405ac2a9, 0x46c4210ab2cc155d, 0x29fab5a7bff53366);
    Next(block, 67, 16, 3, 0xf57d4f7fee6ed178, 0xb01f21926108a4ab, 0x54ba35cf56a0340e, 0x1c66f46d95690bcf);
  }

  lemma Rounds72(block: seq<bv8>)
    requires |block| == 128 && |Tables.K| == 80 && Has(block, 64,
      0x5099c3add79f90ec, 0x5ea81d78e7660bf1, 0xebee6267405ac2a9, 0xb01f21926108a4ab,
      0x786433dd2fe65556, 0xc54a6eaa24a0552c, 0xb3c8f1530bdbaa9e, 0xbb8abfe56f469338)
    requires After(block, 68,
      0x54ba35cf56a0340e, 0x46c4210ab2cc155d, 0xeeb9c21bb0102598, 0x5a806d7e9821a501,
      0x1c66f46d95690bcf, 0x29fab5a7bff53366, 0x3b5fed0d6a1f96e1, 0xaa84b086688a5c45)
    ensures After(block, 72,
      0xf15e9664b2803575, 0x7652c579cb60f19c, 0xfb6aaae5d0b6a447, 0x181839d609c79748,
      0x947c3dfafee570ef, 0xaff62c9665ff80fa, 0xe3711cb6564d112d, 0x0ada78ba2d446140)
  {
    hide Schedule, AbcRounds, Tables.K;
    Next(block, 68, 17, 0, 0x06f067aa72176fba, 0x786433dd2fe65556, 0x181839d609c79748, 0x0ada78ba2d446140);
    Next(block, 69, 17, 1, 0x0a637dc5a2c898a6, 0xc54a6eaa24a0552c, 0xfb6aaae5d0b6a447, 0xe3711cb6564d112d);
    Next(block, 70, 17, 2, 0x113f9804bef90dae, 0xb3c8f1530bdbaa9e, 0x7652c579cb60f19c, 0xaff62c9665ff80fa);
    Next(block, 71, 17, 3, 0x1b710b35131c471b, 0xbb8abfe56f469338, 0xf15e9664b2803575, 0x947c3dfafee570ef);
  }

  lemma Rounds76(block: seq<bv8>)
    requires |block| == 128 && |Tables.K| == 80 && Has(block, 72,
      0xf63d4265cc1c5a78, 0xbe8355ea73129afb, 0x49e2db8ebdcfbeb5, 0x82269d4a883a3d99,
      0xfdf53df3011f362b, 0x464af5671d71c12e, 0xe449b68198ec611c, 0x92aeeed1a7bcf7d2)
    requires After(block, 72,
      0xf15e9664b2803575, 0x7652c579cb60f19c, 0xfb6aaae5d0b6a447, 0x181839d609c79748,
      0x947c3dfafee570ef, 0xaff62c9665ff80fa, 0xe3711cb6564d112d, 0x0ada78ba2d446140)
    ensures After(block, 76,
      0xc8960e6be864b916, 0x33d48dabb5521de2, 0x20878dcd29cdfaf5, 0x358406d165aee9ab,
      0x995019a6ff3ba3de, 0x2ba18245b50de4cf, 0x054d3536539948d0, 0x8c7b5fd91a794ca0)
  {
    hide Schedule, AbcRounds, Tables.K;
    Next(block, 72, 18, 0, 0x28db77f523047d84, 0xf63d4265cc1c5a78, 0x358406d165aee9ab, 0x8c7b5fd91a794ca0);
    Next(block, 73, 18, 1, 0x32caab7b40c72493, 0xbe8355ea73129afb, 0x20878dcd29cdfaf5, 0x054d3536539948d0);
    Next(block, 74, 18, 2, 0x3c9ebe0a15c9bebc, 0x49e2db8ebdcfbeb5, 0x33d48dabb5521de2, 0x2ba18245b50de4cf);
    Next(block, 75, 18, 3, 0x431d67c49c100d4c, 0x82269d4a883a3d99, 0xc8960e6be864b916, 0x995019a6ff3ba3de);
  }

  lemma Rounds80(block: seq<bv8>)
    requires |block| == 128 && |Tables.K| == 80 && Has(block, 72,
      0xf63d4265cc1c5a78, 0xbe8355ea73129afb, 0x49e2db8ebdcfbeb5, 0x82269d4a883a3d99,
      0xfdf53df3011f362b, 0x464af5671d71c12e, 0xe449b68198ec611c, 0x92aeeed1a7bcf7d2)
    requires After(block, 76,
      0xc8960e6be864b916, 0x33d48dabb5521de2, 0x20878dcd29cdfaf5, 0x358406d165aee9ab,
      0x995019a6ff3ba3de, 0x2ba18245b50de4cf, 0x054d3536539948d0, 0x8c7b5fd91a794ca0)
    ensures After(block, 80,
      0x73a54f399fa4b1b2, 0x10d9c4c4295599f6, 0xd67806db8b148677, 0x654ef9abec389ca9,
      0xd08446aa79693ed7, 0x9bb4d39778c07f9e, 0x25c96a7768fb2aa3, 0xceb9fc3691ce8326)
  {
    hide Schedule, AbcRounds, Tables.K;
    Next(block, 76, 19, 0, 0x4cc5d4becb3e42b6, 0xfdf53df3011f362b, 0x654ef9abec389ca9, 0xceb9fc3691ce8326);
    Next(block, 77, 19, 1, 0x597f299cfc657e2a, 0x464af5671d71c12e, 0xd67806db8b148677, 0x25c96a7768fb2aa3);
    Next(block, 78, 19, 2, 0x5fcb6fab3ad6faec, 0xe449b68198ec611c, 0x10d9c4c4295599f6, 0x9bb4d39778c07f9e);
    Next(block, 79, 19, 3, 0x6c44198c4a475817, 0x92aeeed1a7bcf7d2, 0x73a54f399fa4b1b2, 0xd08446aa79693ed7);
  }

  // --- the digest ---

  lemma LengthField()
    ensures BigEndian(24, 16) == Zeros(15) + [24]
  {
    ZerosAreBigEndian(15);
    assert 24 / 256 == 0 && Byte(24) == 24;
  }

  // The one block that "abc" is padded to.
  lemma BlockAt(block: seq<bv8>, i: nat)
    requires block == FipsPadded(ABC) && i < 128
    ensures |block| == 128
    ensures block[i] ==
      (if i == 0 then 0x61 else if i == 1 then 0x62 else if i == 2 then 0x63 else if i == 3 then 0x80
       else if i == 127 then 24 else 0)
  {
    hide Zeros, BigEndian;
    ZerosAt(108);
    ZerosAt(15);
    LengthField();
    assert ZeroCount(3, 112, 128) == 108;
    assert block == ABC + [0x80] + Zeros(108) + (Zeros(15) + [24]);
  }

  lemma Padding(block: seq<bv8>)
    requires block == FipsPadded(ABC)
    ensures |block| == 128
    ensures Has(block, 0,
      0x6162638000000000, 0x0000000000000000, 0x0000000000000000, 0x0000000000000000,
      0x0000000000000000, 0x0000000000000000, 0x0000000000000000, 0x0000000000000000)
    ensures Has(block, 8,
      0x0000000000000000, 0x0000000000000000, 0x0000000000000000, 0x0000000000000000,
      0x0000000000000000, 0x0000000000000000, 0x0000000000000000, 0x0000000000000018)
  {
    hide Load64H, FipsPadded;
    BlockAt(block, 0);
    forall t | 0 <= t < 16
      ensures Schedule(block, t) == if t == 0 then 0x6162638000000000 else if t == 15 then 24 else 0
    {
      var b := block[8 * t..8 * t + 8];
      forall j | 0 <= j < 8 ensures b[j] == block[8 * t + j] {
      }
      forall i | 0 <= i < 128
        ensures block[i] ==
          if i == 0 then 0x61 else if i == 1 then 0x62 else if i == 2 then 0x63 else if i == 3 then 0x80
          else if i == 127 then 24 else 0
      {
        BlockAt(block, i);
      }
      Joined(b);
    }
  }

  lemma Joined(b: seq<bv8>)
    requires |b| == 8
    ensures b == [0x61, 0x62, 0x63, 0x80, 0, 0, 0, 0] ==> Load64H(b) == 0x6162638000000000
    ensures (forall j :: 0 <= j < 7 ==> b[j] == 0) && b[7] == 24 ==> Load64H(b) == 24
    ensures (forall j :: 0 <= j < 8 ==> b[j] == 0) ==> Load64H(b) == 0
  {
  }

  lemma AllRounds(block: seq<bv8>)
    requires |block| == 128 && |Tables.K| == 80 && After(block, 0,
      0x6a09e667f3bcc908, 0xbb67ae8584caa73b, 0x3c6ef372fe94f82b, 0xa54ff53a5f1d36f1,
      0x510e527fade682d1, 0x9b05688c2b3e6c1f, 0x1f83d9abfb41bd6b, 0x5be0cd19137e2179)
    requires Has(block, 0,
      0x6162638000000000, 0x0000000000000000, 0x0000000000000000, 0x0000000000000000,
      0x0000000000000000, 0x0000000000000000, 0x0000000000000000, 0x0000000000000000)
    requires Has(block, 8,
      0x0000000000000000, 0x0000000000000000, 0x0000000000000000, 0x0000000000000000,
      0x0000000000000000, 0x0000000000000000, 0x0000000000000000, 0x0000000000000018)
    ensures After(block, 80,
      0x73a54f399fa4b1b2, 0x10d9c4c4295599f6, 0xd67806db8b148677, 0x654ef9abec389ca9,
      0xd08446aa79693ed7, 0x9bb4d39778c07f9e, 0x25c96a7768fb2aa3, 0xceb9fc3691ce8326)
  {
    hide Schedule, After, AbcRounds, Tables.K;
    Words16(block); Words24(block);
    Words32(block); Words40(block);
    Words48(block); Words56(block);
    Words64(block); Words72(block);
    Rounds4(block); Rounds8(block); Rounds12(block); Rounds16(block);
    Rounds20(block); Rounds24(block); Rounds28(block); Rounds32(block);
    Rounds36(block); Rounds40(block); Rounds44(block); Rounds48(block);
    Rounds52(block); Rounds56(block); Rounds60(block); Rounds64(block);
    Rounds68(block); Rounds72(block); Rounds76(block); Rounds80(block);
  }

  lemma FoldOne(block: seq<bv8>)
    requires |block| == 128
    ensures Fold(Compress, 128, Tables.IV, block) == Compress(Tables.IV, block)
  {
    hide Compress, Tables.IV;
    assert block[..128] == block && |block[128..]| == 0;
  }

  // The chaining words added to the variables.
  lemma Sum()
    ensures Fed(Tables.IV, Vars(
      0x73a54f399fa4b1b2, 0x10d9c4c4295599f6, 0xd67806db8b148677, 0x654ef9abec389ca9,
      0xd08446aa79693ed7, 0x9bb4d39778c07f9e, 0x25c96a7768fb2aa3, 0xceb9fc3691ce8326)) == [
      0xddaf35a193617aba, 0xcc417349ae204131, 0x12e6fa4e89a97ea2, 0x0a9eeee64b55d39a,
      0x2192992a274fc1a8, 0x36ba3c23a3feebbd, 0x454d4423643ce80e, 0x2a9ac94fa54ca49f]
  {
  }

  // The digest is the words, eight bytes each.
  lemma {:induction false} OutputAt(s: seq<bv64>, i: nat)
    requires i < |s|
    ensures |Output(s)| == 8 * |s| && Output(s)[8 * i..8 * i + 8] == Store64H(s[i])
  {
    hide Store64H;
    var n := |s| - 1;
    if n > 0 {
      OutputAt(s[..n], if i < n then i else 0);
    }
    var head, tail := Output(s[..n]), Store64H(s[n]);
    assert Output(s) == head + tail && |head| == 8 * n;
    if i < n {
      assert s[..n][i] == s[i] && (head + tail)[8 * i..8 * i + 8] == head[8 * i..8 * i + 8];
    } else {
      assert (head + tail)[8 * n..8 * n + 8] == tail;
    }
  }

  lemma Bytes8()
    ensures Store64H(0xddaf35a193617aba) == [0xdd, 0xaf, 0x35, 0xa1, 0x93, 0x61, 0x7a, 0xba]
    ensures Store64H(0xcc417349ae204131) == [0xcc, 0x41, 0x73, 0x49, 0xae, 0x20, 0x41, 0x31]
    ensures Store64H(0x12e6fa4e89a97ea2) == [0x12, 0xe6, 0xfa, 0x4e, 0x89, 0xa9, 0x7e, 0xa2]
    ensures Store64H(0x0a9eeee64b55d39a) == [0x0a, 0x9e, 0xee, 0xe6, 0x4b, 0x55, 0xd3, 0x9a]
    ensures Store64H(0x2192992a274fc1a8) == [0x21, 0x92, 0x99, 0x2a, 0x27, 0x4f, 0xc1, 0xa8]
    ensures Store64H(0x36ba3c23a3feebbd) == [0x36, 0xba, 0x3c, 0x23, 0xa3, 0xfe, 0xeb, 0xbd]
    ensures Store64H(0x454d4423643ce80e) == [0x45, 0x4d, 0x44, 0x23, 0x64, 0x3c, 0xe8, 0x0e]
    ensures Store64H(0x2a9ac94fa54ca49f) == [0x2a, 0x9a, 0xc9, 0x4f, 0xa5, 0x4c, 0xa4, 0x9f]
  {
  }

  lemma AbcWords(block: seq<bv8>)
    requires block == FipsPadded(ABC)
    ensures Fold(Compress, 128, Tables.IV, block) == [
      0xddaf35a193617aba, 0xcc417349ae204131, 0x12e6fa4e89a97ea2, 0x0a9eeee64b55d39a,
      0x2192992a274fc1a8, 0x36ba3c23a3feebbd, 0x454d4423643ce80e, 0x2a9ac94fa54ca49f]
  {
    Padding(block);
    assert |Tables.K| == 80;
    Start(block);
    AllRounds(block);
    Sum();
    hide FipsPadded, Rounds, Has, Schedule, Tables.K, Tables.IV, Fed;
    FoldOne(block);
  }

  // SHA-512 of "abc" is what the standard and the self test of the code say.
  lemma Abc()
    ensures |FipsHash(ABC)| == 64
    ensures FipsHash(ABC)[0..8] == [0xdd, 0xaf, 0x35, 0xa1, 0x93, 0x61, 0x7a, 0xba]
    ensures FipsHash(ABC)[8..16] == [0xcc, 0x41, 0x73, 0x49, 0xae, 0x20, 0x41, 0x31]
    ensures FipsHash(ABC)[16..24] == [0x12, 0xe6, 0xfa, 0x4e, 0x89, 0xa9, 0x7e, 0xa2]
    ensures FipsHash(ABC)[24..32] == [0x0a, 0x9e, 0xee, 0xe6, 0x4b, 0x55, 0xd3, 0x9a]
    ensures FipsHash(ABC)[32..40] == [0x21, 0x92, 0x99, 0x2a, 0x27, 0x4f, 0xc1, 0xa8]
    ensures FipsHash(ABC)[40..48] == [0x36, 0xba, 0x3c, 0x23, 0xa3, 0xfe, 0xeb, 0xbd]
    ensures FipsHash(ABC)[48..56] == [0x45, 0x4d, 0x44, 0x23, 0x64, 0x3c, 0xe8, 0x0e]
    ensures FipsHash(ABC)[56..64] == [0x2a, 0x9a, 0xc9, 0x4f, 0xa5, 0x4c, 0xa4, 0x9f]
  {
    var block := FipsPadded(ABC);
    AbcWords(block);
    Bytes8();
    hide Fold, FipsPadded, Store64H, Output, Tables.IV, Compress, Padded;
    var words := Fold(Compress, 128, Tables.IV, block);
    OutputAt(words, 0);
    OutputAt(words, 1);
    OutputAt(words, 2);
    OutputAt(words, 3);
    OutputAt(words, 4);
    OutputAt(words, 5);
    OutputAt(words, 6);
    OutputAt(words, 7);
  }

  lemma Start(block: seq<bv8>)
    requires |block| == 128 && |Tables.K| == 80
    ensures After(block, 0,
      0x6a09e667f3bcc908, 0xbb67ae8584caa73b, 0x3c6ef372fe94f82b, 0xa54ff53a5f1d36f1,
      0x510e527fade682d1, 0x9b05688c2b3e6c1f, 0x1f83d9abfb41bd6b, 0x5be0cd19137e2179)
  {
  }
}
