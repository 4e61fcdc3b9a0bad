/** Keys name files by the XXH64 hash of the key (src/file.c:197-204). */
module Keys {
  import opened Memory
  import opened Wrappers
  import opened TableSpec
  import opened HashValues
  import Xxh64
  import Xxh64Injective

  /** XXH64(key, strlen(key), 0) */
  function KeyHash(key: seq<byte>): nat {
    Xxh64.Hash(0, CString(key))
  }

  lemma {:induction false} CStringStops(key: seq<byte>, more: seq<byte>)
    ensures CString(key + [0] + more) == CString(key)
  {
    if key == [] {
      assert ([] + [0] + more)[0] == 0;
    } else {
      assert (key + [0] + more)[1..] == key[1..] + [0] + more;
      CStringStops(key[1..], more);
    }
  }

  lemma {:induction false} CStringWhole(key: seq<byte>)
    requires 0 !in key
    ensures CString(key) == key
  {
    if key == [] {
    } else {
      CStringWhole(key[1..]);
    }
  }

  /** Keys that agree up to a NUL byte name the same file, whatever follows it. */
  lemma RestIgnored(key: seq<byte>, more: seq<byte>, more': seq<byte>)
    ensures KeyHash(key + [0] + more) == KeyHash(key + [0] + more') == KeyHash(key)
  {
    hide Xxh64.Hash;
    CStringStops(key, more);
    CStringStops(key, more');
  }

  /** Keys of 1, 4 or 8 characters name the same file only if they are the same. */
  lemma SameFileExactly(key: seq<byte>, key': seq<byte>)
    requires |CString(key)| == |CString(key')| && |CString(key)| in {1, 4, 8}
    ensures KeyHash(key) == KeyHash(key') <==> CString(key) == CString(key')
  {
    Xxh64Injective.NoCollisionSmallKeys(0, CString(key), CString(key'));
  }

  /** In every table, different keys of 1, 4 or 8 characters are never found in the same slot. */
  lemma SlotsApart(t: Table, key: seq<byte>, key': seq<byte>)
    requires |CString(key)| == |CString(key')| && |CString(key)| in {1, 4, 8} && CString(key) != CString(key')
    requires Lookup(t, KeyHash(key)).Some? && Lookup(t, KeyHash(key')).Some?
    ensures Lookup(t, KeyHash(key)) != Lookup(t, KeyHash(key'))
  {
    hide KeyHash, Bucket;
    SameFileExactly(key, key');
  }

  // ---------- Keys for which the table goes wrong ----------

  const ZERO_KEY: seq<byte> := [122, 101, 114, 111, 97, 116, 54, 100, 76, 90, 89, 87, 119, 79, 57, 50]

  const FIRST_KEY: seq<byte> := [97, 97, 111, 52]

  const SECOND_KEY: seq<byte> := [97, 97, 117, 120]

  /** The key "zeroat6dLZYWwO92" hashes to 0. */
  lemma ZeroKeyHash()
    ensures Xxh64.Hash(0, ZERO_KEY) == 0
  {
    hide Xxh64.Hash;
    assert ZERO_KEY == ZERO_KEY[..8] + ZERO_KEY[8..];
    SixteenBytes(ZERO_KEY[..8], ZERO_KEY[8..], 0x27D4EB2F165667D5,
      LongStep(Times(5491917935043659864, 0x745D2DA3067C4EA6),
               Mixing(976131793, 4403777190, Times(5844771830061200499, 0x3BD5156C786D7237), 0, 0x3BD5156C786D7237),
               Mixing(14684146, 14734267874, Times(1222223986403043018, 0x85EEB5EC0FE35C9E), 1, 0xBDA8063D2960B01)),
      LongStep(Times(2752398939359019032, 0x54731DF5566A174),
               Mixing(44275951, 5727756660, Times(7601981055830501371, 0xC420770D09573C09), 0, 0xC420770D09573C09),
               Mixing(109041595, 63816414984, Times(5293642940871456065, 0x7A1435883D4D519D), 1, 0)),
      Last(Folding(0, 0), Times(0, 0),
           Folding(0, 0), Times(0, 0),
           Folding(0, 0)));
  }

  /** "aao4" */
  lemma FirstCollidingHash()
    ensures Xxh64.Hash(0, FIRST_KEY) == 10237340932423082222
  {
    hide Xxh64.Hash;
    FourBytes(FIRST_KEY, 0x27D4EB2F165667C9,
      ShortStep(Times(543693556, 0xCB4E5662529DE427),
                Mixing(7753054, 1431378297838, Times(9131997612355821940, 0xB7FCBC2C5A5F2A02), 0, 0xCE5323DDF896A3FB)),
      Last(Folding(0x672991EE, 8465589243), Times(11307135046188689982, 0x35A623007B5DBB7B),
           Folding(0x1AD311803, 459127675), Times(337315379764754930, 0x8E12575617B6B7B8),
           Folding(0x8E125756, 397850552)));
  }

  /** "aaux" */
  lemma SecondCollidingHash()
    ensures Xxh64.Hash(0, SECOND_KEY) == 8570305224742435262
  {
    hide Xxh64.Hash;
    FourBytes(SECOND_KEY, 0x27D4EB2F165667C9,
      ShortStep(Times(1249021076, 0xCD0A1BB4EDC7E427),
                Mixing(7696248, 669940548590, Times(4274128998175621626, 0x101DF2D7C1F08E08), 0, 0x26745A8960280801)),
      Last(Folding(0x133A2D44, 5908203521), Times(2107407202431301457, 0x8C00F3318AF3D74B),
           Folding(0x46007998C, 183752523), Times(880266732249789355, 0x76EFD731BF9DAE8F),
           Folding(0x76EFD731, 3214782095)));
  }

  lemma ZeroKey()
    ensures KeyHash(ZERO_KEY) == 0
  {
    hide Xxh64.Hash;
    ZeroKeyHash();
    CStringWhole(ZERO_KEY);
  }

  /** The slot of this key's file is taken for free again, and the next file is put over it. */
  lemma ZeroKeyOverwritten(t: Table, d: Disk, key: seq<byte>, clock: nat, now: nat)
    requires Unlinked(t) && !Full(t) && d.pathOk && d.fopenOk
    requires Lookup(t, 0).None? && KeyHash(key) != 0
    ensures var e := Prepare(KeyHash(ZERO_KEY), 0, d, clock, now);
            var f := Prepare(KeyHash(key), 0, d, clock, now);
            && Outcome(t, e) >= 0
            && (var u := Step(t, e);
                && Enabled(u, f)
                && (Lookup(u, KeyHash(key)).None? ==>
                      Outcome(u, f) == Outcome(t, e) && Lookup(Step(u, f), KeyHash(ZERO_KEY)).None?))
  {
    hide KeyHash, Step, Outcome, Lookup, Enabled, Unlinked, Full;
    ZeroKey();
    ZeroHashNext(t, d, KeyHash(key), clock, now);
  }

  /** Two keys of four letters whose files share a bucket. */
  lemma CollidingHashes()
    ensures KeyHash(FIRST_KEY) == 10237340932423082222 && KeyHash(SECOND_KEY) == 8570305224742435262
  {
    hide Xxh64.Hash;
    FirstCollidingHash();
    SecondCollidingHash();
    CStringWhole(FIRST_KEY);
    CStringWhole(SECOND_KEY);
  }

  /** Asking for the first, the second and the first of them again opens three files. */
  lemma CollidingKeys(d: Disk, size: nat)
    requires d.pathOk && d.fopenOk && size >= 3
    ensures var e, f := Prepare(KeyHash(FIRST_KEY), 0, d, 0, 0), Prepare(KeyHash(SECOND_KEY), 0, d, 0, 0);
            && AllEnabled(Initial(size), [e, f, e])
            && (var t := After(Initial(size), [e, f, e]);
                && |t.descs| == size && t.descs[0].hash == t.descs[2].hash == KeyHash(FIRST_KEY)
                && t.descs[1].hash == KeyHash(SECOND_KEY) && Lookup(t, KeyHash(SECOND_KEY)) == None)
  {
    hide KeyHash, Step, AllEnabled, After, Lookup;
    CollidingHashes();
    CollisionExample(KeyHash(FIRST_KEY), KeyHash(SECOND_KEY), d, size);
  }
}
