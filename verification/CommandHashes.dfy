/** The constants that parse_and_execute switches on (src/parser.c:99-103, 150, 196, 286, 348, 358) are
    the XXH64 hashes of the first five bytes of the command names. Each proof is a computation: the
    intermediate words are given and checked. */
module CommandHashes {
  import opened Xxh64
  import opened HashValues

  /** "SETBI" */
  lemma SetbitHash()
    ensures Hash(0, [83, 69, 84, 66, 73]) == 13964470052823109277
  {
    hide Hash;
    FiveBytes([83, 69, 84, 66, 73], 0x27D4EB2F165667CA,
      ShortStep(Times(687759979, 0xF290093C3B550CC5),
                Mixing(6988401, 82359577359, Times(525442830131036695, 0xA2707AC41119DBDF), 0, 0xB8C6E275AF5155D8)),
      ShortStep(Times(11, 0x5BB7106D5EA3972D),
                Mixing(1819, 5051263556436725, Times(6393554031889033353, 0xFD8A73889B71A53D), 0, 0xFD8A73889B71A53D)),
      Last(Folding(0x7EC539C4, 2607916349), Times(13894698189111042455, 0x3401B4EC9C0903D7),
           Folding(0x1A00DA764, 470352855), Times(326989466431942066, 0xC1CBC3866ED1CD1B),
           Folding(0xC1CBC386, 1859243291)));
  }

  /** "GETBI" */
  lemma GetbitHash()
    ensures Hash(0, [71, 69, 84, 66, 73]) == 4534844053247176213
  {
    hide Hash;
    FiveBytes([71, 69, 84, 66, 73], 0x27D4EB2F165667CA,
      ShortStep(Times(687759972, 0x87F654E9F4478E71),
                Mixing(5247327, 1953707977147, Times(12464389469568687098, 0x41DA3C54ED39151), 0, 0x1A740B76ED0B0B4A)),
      ShortStep(Times(11, 0x5BB7106D5EA3972D),
                Mixing(526, 874230722370663, Times(1106543203965609936, 0x81F101B8307CA962), 0, 0x81F101B8307CA962)),
      Last(Folding(0x40F880DC, 813476194), Times(7121129245695472444, 0x81CE3D488E724BA2),
           Folding(0x40E71EA44, 242371490), Times(816146733203383685, 0x3EEF00A3F7782EB6),
           Folding(0x3EEF00A3, 4151848630)));
  }

  /** "BITOP" */
  lemma BitopHash()
    ensures Hash(0, [66, 73, 84, 79, 80]) == 2226304069708374537
  {
    hide Hash;
    FiveBytes([66, 73, 84, 79, 80], 0x27D4EB2F165667CA,
      ShortStep(Times(822556168, 0x5294B3D2E0D6B5CE),
                Mixing(3842092, 1090762363396, Times(6958914574311200327, 0x41641EE2D98FD194), 0, 0x57BA869477C74B8D)),
      ShortStep(Times(12, 0x72897EB6FB006D90),
                Mixing(297, 5620851831940637, Times(7114501053298006360, 0x7D4BEA6A16684E9F), 0, 0x7D4BEA6A16684E9F)),
      Last(Folding(0x3EA5F535, 375934623), Times(6866577336564060426, 0x85852FAFC189F776),
           Folding(0x42C297D7E, 25818998), Times(839502330741581037, 0x1EE56BC19A1C09C8),
           Folding(0x1EE56BC1, 2585528776)));
  }

  /** "BITCO" */
  lemma BitcountHash()
    ensures Hash(0, [66, 73, 84, 67, 79]) == 9951046379166068647
  {
    hide Hash;
    FiveBytes([66, 73, 84, 67, 79], 0x27D4EB2F165667CA,
      ShortStep(Times(698129492, 0x4DA6548CD6B5CE),
                Mixing(1297574, 1630384738820, Times(10401631465703885960, 0x5DFA99709470893A), 0, 0x7451012232A80333)),
      ShortStep(Times(12, 0x4AB49387E4AA05CB),
                Mixing(503, 1568615841269496, Times(1985449783877105295, 0x3CDA415FED312F41), 0, 0x3CDA415FED312F41)),
      Last(Folding(0x1E6D20AF, 8274390849), Times(3334878926870389245, 0xE2255F620F206472),
           Folding(0x7112AFB10, 253781106), Times(1421882229428697067, 0x8A1937F5F7B85852),
           Folding(0x8A1937F5, 4156053586)));
  }

  /** "BITPO" */
  lemma BitposHash()
    ensures Hash(0, [66, 73, 84, 80, 79]) == 16475154490487774448
  {
    hide Hash;
    FiveBytes([66, 73, 84, 80, 79], 0x27D4EB2F165667CA,
      ShortStep(Times(832925058, 0x41A9F9D67D6B5CE),
                Mixing(1173306, 766408446468, Times(4889580982052852844, 0x5B2BBB2D64D098E6), 0, 0x718222DF030812DF)),
      ShortStep(Times(12, 0x4AB49387E4AA05CB),
                Mixing(473, 6387444889032468, Times(8084803647139510581, 0x63E9FE00D045936F), 0, 0x63E9FE00D045936F)),
      Last(Folding(0x31F4FF00, 3494220655), Times(5475549421600456820, 0xFEA5685939365B41),
           Folding(0x7F52B42C9, 422992705), Times(1601075496712381674, 0xE4A381B8B5971D48),
           Folding(0xE4A381B8, 3046579528)));
  }

  /** "BITFI" */
  lemma BitfieldHash()
    ensures Hash(0, [66, 73, 84, 70, 73]) == 16283480983475320022
  {
    hide Hash;
    FiveBytes([66, 73, 84, 70, 73], 0x27D4EB2F165667CA,
      ShortStep(Times(729236161, 0x14DF69B421D6B5CE),
                Mixing(1672641, 666651120132, Times(4253142894867794991, 0x5E2872D53E7C718F), 0, 0x747EDA86DCB3EB88)),
      ShortStep(Times(11, 0x5BB7106D5EA3972D),
                Mixing(382, 2756387638639781, Times(3488852463066924698, 0x8685F4D1ED404D72), 0, 0x8685F4D1ED404D72)),
      Last(Folding(0x4342FA68, 8275381618), Times(7372225714670088642, 0x7D66D8C7C8735F06),
           Folding(0x3EB36C63E, 141778694), Times(788457559454336250, 0xE1FA8BAEAF257F78),
           Folding(0xE1FA8BAE, 2938470264)));
  }

  /** Five spaces do not hash to any of the constants. */
  lemma BlankHash()
    ensures Hash(0, [32, 32, 32, 32, 32]) == 6063810344772989500
  {
    hide Hash;
    FiveBytes([32, 32, 32, 32, 32], 0x27D4EB2F165667CA,
      ShortStep(Times(333105664, 0x1D139DB867AA30E0),
                Mixing(1926075, 650452424490, Times(4149797433958485316, 0xDF07456C127A6FB5), 0, 0xF55DAD1DB0B1E9AE)),
      ShortStep(Times(4, 0xFA9D65E2CACCF8A0),
                Mixing(126, 220999597232398, Times(279726616943304715, 0x9293AF0A0260BE72), 0, 0x9293AF0A0260BE72)),
      Last(Folding(0x4949D785, 39894642), Times(8032795664487662165, 0x3DDD267797997039),
           Folding(0x1EEE933BC, 395931705), Times(388966154034059780, 0x5426FB61C5AE895D),
           Folding(0x5426FB61, 3316549981)));
  }
}
