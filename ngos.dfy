/** The NGO registry shared by the scrapers: each tracked organisation with its id,
    display name and the keyword strings the matchers look for, in list order.

    The constant is written as 25 blocks of five entries, gathered into five groups
    of 25.  Facts about the data are proved block by block and carried across the
    concatenations by `NumberedFive` and `IdsWithFive`. */
module Ngos {
  import opened Text

  datatype Ngo = Ngo(id: int, name: string, keywords: seq<string>)

  /** the ids run `first`, `first + 1`, ... in list order and no keyword list is empty */
  predicate WellNumbered(s: seq<Ngo>, first: int) {
    forall i | 0 <= i < |s| :: s[i].id == first + i && s[i].keywords != []
  }

  /** the ids of the entries satisfying `p` */
  function IdsWith(s: seq<Ngo>, p: Ngo -> bool): set<int> {
    set i | 0 <= i < |s| && p(s[i]) :: s[i].id
  }

  predicate HasUpperName(n: Ngo) { IsUpper(n.name) }

  function ListsKeyword(k: string): Ngo -> bool { (n: Ngo) => k in n.keywords }

  /** the ids of the entries listing keyword `k` */
  function Owners(s: seq<Ngo>, k: string): set<int> { IdsWith(s, ListsKeyword(k)) }

  lemma WellNumberedAppend(a: seq<Ngo>, b: seq<Ngo>, first: int)
    requires WellNumbered(a, first) && WellNumbered(b, first + |a|)
    ensures WellNumbered(a + b, first)
  {
    forall i | 0 <= i < |a + b| ensures (a + b)[i].id == first + i && (a + b)[i].keywords != [] {
      if i < |a| {
        assert (a + b)[i] == a[i];
      } else {
        assert (a + b)[i] == b[i - |a|];
      }
    }
  }

  lemma IdsWithAppend(a: seq<Ngo>, b: seq<Ngo>, p: Ngo -> bool)
    ensures IdsWith(a + b, p) == IdsWith(a, p) + IdsWith(b, p)
  {
    forall x | x in IdsWith(a, p) ensures x in IdsWith(a + b, p) {
      var i :| 0 <= i < |a| && p(a[i]) && a[i].id == x;
      assert (a + b)[i] == a[i];
    }
    forall x | x in IdsWith(b, p) ensures x in IdsWith(a + b, p) {
      var i :| 0 <= i < |b| && p(b[i]) && b[i].id == x;
      assert (a + b)[|a| + i] == b[i];
    }
    forall x | x in IdsWith(a + b, p) ensures x in IdsWith(a, p) + IdsWith(b, p) {
      var i :| 0 <= i < |a + b| && p((a + b)[i]) && (a + b)[i].id == x;
      if i >= |a| {
        assert (a + b)[i] == b[i - |a|];
      }
    }
  }

  /** in a well-numbered run, an entry satisfies `p` exactly when its id is in `IdsWith(s, p)` */
  lemma IdsWithMembership(s: seq<Ngo>, first: int, p: Ngo -> bool)
    requires WellNumbered(s, first)
    ensures forall i | 0 <= i < |s| :: p(s[i]) <==> s[i].id in IdsWith(s, p)
  {
    forall i | 0 <= i < |s| && s[i].id in IdsWith(s, p) ensures p(s[i]) {
      var j :| 0 <= j < |s| && p(s[j]) && s[j].id == s[i].id;
      assert j == i;
    }
  }

  /** five consecutive runs of `width` well-numbered entries make one run */
  lemma NumberedFive(s1: seq<Ngo>, s2: seq<Ngo>, s3: seq<Ngo>, s4: seq<Ngo>, s5: seq<Ngo>, first: int, width: nat)
    requires |s1| == width && |s2| == width && |s3| == width && |s4| == width && |s5| == width
    requires WellNumbered(s1, first) && WellNumbered(s2, first + width) && WellNumbered(s3, first + 2 * width)
    requires WellNumbered(s4, first + 3 * width) && WellNumbered(s5, first + 4 * width)
    ensures |s1 + s2 + s3 + s4 + s5| == 5 * width && WellNumbered(s1 + s2 + s3 + s4 + s5, first)
  {
    WellNumberedAppend(s1, s2, first);
    WellNumberedAppend(s1 + s2, s3, first);
    WellNumberedAppend(s1 + s2 + s3, s4, first);
    WellNumberedAppend(s1 + s2 + s3 + s4, s5, first);
  }

  lemma IdsWithFive(s1: seq<Ngo>, s2: seq<Ngo>, s3: seq<Ngo>, s4: seq<Ngo>, s5: seq<Ngo>, p: Ngo -> bool)
    ensures IdsWith(s1 + s2 + s3 + s4 + s5, p)
         == IdsWith(s1, p) + IdsWith(s2, p) + IdsWith(s3, p) + IdsWith(s4, p) + IdsWith(s5, p)
  {
    IdsWithAppend(s1, s2, p);
    IdsWithAppend(s1 + s2, s3, p);
    IdsWithAppend(s1 + s2 + s3, s4, p);
    IdsWithAppend(s1 + s2 + s3 + s4, s5, p);
  }

  /** the id of `n` when it satisfies `p` */
  function IdIf(n: Ngo, p: Ngo -> bool): set<int> { if p(n) then {n.id} else {} }

  lemma IdsWithOne(n: Ngo, p: Ngo -> bool)
    ensures IdsWith([n], p) == IdIf(n, p)
  {
    if p(n) {
      assert [n][0] == n;
    }
  }

  /** the ids of a run of five entries, entry by entry */
  lemma IdsWithOfFive(s: seq<Ngo>, p: Ngo -> bool)
    requires |s| == 5
    ensures IdsWith(s, p) == IdIf(s[0], p) + IdIf(s[1], p) + IdIf(s[2], p) + IdIf(s[3], p) + IdIf(s[4], p)
  {
    assert s == [s[0]] + [s[1]] + [s[2]] + [s[3]] + [s[4]];
    IdsWithFive([s[0]], [s[1]], [s[2]], [s[3]], [s[4]], p);
    IdsWithOne(s[0], p);
    IdsWithOne(s[1], p);
    IdsWithOne(s[2], p);
    IdsWithOne(s[3], p);
    IdsWithOne(s[4], p);
  }

  /** ids of the registry entries whose name passes `str.isupper` */
  const UpperNameIds: set<int> := {2, 12, 25, 26, 28, 32, 49, 55, 67, 78, 81}

  const Block1: seq<Ngo> := [
    Ngo(1, "American Red Cross", ["American Red Cross", "Red Cross", "redcross", "ARC"]),
    Ngo(2, "UNICEF", ["UNICEF"]),
    Ngo(3, "Doctors Without Borders / MSF-USA", ["Doctors Without Borders", "MSF", "MSF-USA", "M\U{E9}decins Sans Fronti\U{E8}res"]),
    Ngo(4, "World Wildlife Fund", ["World Wildlife Fund", "WWF"]),
    Ngo(5, "Amnesty International", ["Amnesty International"])
  ]

  const Block2: seq<Ngo> := [
    Ngo(6, "Greenpeace International", ["Greenpeace International", "Greenpeace"]),
    Ngo(7, "Oxfam GB", ["Oxfam GB", "Oxfam"]),
    Ngo(8, "SaveTheChildren", ["SaveTheChildren", "Save the Children"]),
    Ngo(9, "Human Rights Watch", ["Human Rights Watch", "HRW"]),
    Ngo(10, "International Rescue Committee", ["International Rescue Committee", "IRC", "The International Rescue Committee"])
  ]

  const Block3: seq<Ngo> := [
    Ngo(11, "Habitat for Humanity", ["Habitat for Humanity", "Habitat"]),
    Ngo(12, "CARE", ["CARE"]),
    Ngo(13, "The Nature Conservancy", ["The Nature Conservancy", "Nature Conservancy"]),
    Ngo(14, "World Food Programme", ["World Food Programme", "WFP"]),
    Ngo(15, "Planned Parenthood", ["Planned Parenthood"])
  ]

  const Block4: seq<Ngo> := [
    Ngo(16, "Heifer International", ["Heifer International", "Heifer"]),
    Ngo(17, "Kiva", ["Kiva"]),
    Ngo(18, "Bill & Melinda Gates Foundation", ["Bill & Melinda Gates Foundation", "Gates Foundation"]),
    Ngo(19, "Mercy Corps", ["Mercy Corps"]),
    Ngo(20, "International Justice Mission", ["International Justice Mission", "IJM"])
  ]

  const Block5: seq<Ngo> := [
    Ngo(21, "Rotary International", ["Rotary International", "Rotary"]),
    Ngo(22, "CARE International", ["CARE International"]),
    Ngo(23, "World Vision", ["World Vision"]),
    Ngo(24, "The Salvation Army", ["The Salvation Army", "Salvation Army"]),
    Ngo(25, "BRAC", ["BRAC"])
  ]

  const Block6: seq<Ngo> := [
    Ngo(26, "UNHCR", ["UNHCR", "UN Refugee Agency"]),
    Ngo(27, "International Federation of Red Cross and Red Crescent Societies", ["IFRC", "International Federation of Red Cross and Red Crescent Societies"]),
    Ngo(28, "CARE USA", ["CARE USA"]),
    Ngo(29, "Feeding America", ["Feeding America"]),
    Ngo(30, "National Geographic Society", ["National Geographic Society", "NatGeo"])
  ]

  const Block7: seq<Ngo> := [
    Ngo(31, "The Rotary Club", ["Rotary Club"]),
    Ngo(32, "PATH", ["PATH"]),
    Ngo(33, "World Health Organization", ["World Health Organization", "WHO"]),
    Ngo(34, "UN Women", ["UN Women"]),
    Ngo(35, "Save the Children International", ["Save the Children International"])
  ]

  const Block8: seq<Ngo> := [
    Ngo(36, "CARE Australia", ["CARE Australia"]),
    Ngo(37, "The Carter Center", ["The Carter Center"]),
    Ngo(38, "Global Fund for Women", ["Global Fund for Women"]),
    Ngo(39, "Conservation International", ["Conservation International"]),
    Ngo(40, "International Planned Parenthood Federation", ["IPPF", "International Planned Parenthood Federation"])
  ]

  const Block9: seq<Ngo> := [
    Ngo(41, "CARE Canada", ["CARE Canada"]),
    Ngo(42, "BRAC International", ["BRAC International"]),
    Ngo(43, "The Sierra Club", ["Sierra Club"]),
    Ngo(44, "Friends of the Earth", ["Friends of the Earth"]),
    Ngo(45, "Action Against Hunger", ["Action Against Hunger"])
  ]

  const Block10: seq<Ngo> := [
    Ngo(46, "International Medical Corps", ["International Medical Corps"]),
    Ngo(47, "CARE India", ["CARE India"]),
    Ngo(48, "World Bank", ["World Bank"]),
    Ngo(49, "UNDP", ["United Nations Development Programme", "UNDP"]),
    Ngo(50, "International Committee of the Red Cross", ["International Committee of the Red Cross", "ICRC"])
  ]

  const Block11: seq<Ngo> := [
    Ngo(51, "Red Crescent", ["Red Crescent"]),
    Ngo(52, "World Vision International", ["World Vision International"]),
    Ngo(53, "Partners In Health", ["Partners In Health", "PIH"]),
    Ngo(54, "International Federation of Red Cross", ["International Federation of Red Cross"]),
    Ngo(55, "BRAC USA", ["BRAC USA"])
  ]

  const Block12: seq<Ngo> := [
    Ngo(56, "Global Health Council", ["Global Health Council"]),
    Ngo(57, "Population Services International", ["Population Services International", "PSI"]),
    Ngo(58, "The Global Fund", ["The Global Fund"]),
    Ngo(59, "United Way", ["United Way"]),
    Ngo(60, "Room to Read", ["Room to Read"])
  ]

  const Block13: seq<Ngo> := [
    Ngo(61, "Catholic Relief Services", ["Catholic Relief Services", "CRS"]),
    Ngo(62, "International Youth Foundation", ["International Youth Foundation", "IYF"]),
    Ngo(63, "One Acre Fund", ["One Acre Fund"]),
    Ngo(64, "Room to Grow", ["Room to Grow"]),
    Ngo(65, "Humanity United", ["Humanity United"])
  ]

  const Block14: seq<Ngo> := [
    Ngo(66, "Plan International", ["Plan International"]),
    Ngo(67, "VSO", ["VSO", "Voluntary Service Overseas"]),
    Ngo(68, "The Global Alliance for Vaccines and Immunization", ["GAVI", "The Global Alliance for Vaccines and Immunization"]),
    Ngo(69, "World Resources Institute", ["World Resources Institute", "WRI"]),
    Ngo(70, "African Wildlife Foundation", ["African Wildlife Foundation", "AWF"])
  ]

  const Block15: seq<Ngo> := [
    Ngo(71, "Habitat for Humanity International", ["Habitat for Humanity International"]),
    Ngo(72, "Wildlife Conservation Society", ["Wildlife Conservation Society", "WCS"]),
    Ngo(73, "Save the Children USA", ["Save the Children USA"]),
    Ngo(74, "Amnesty International USA", ["Amnesty International USA"]),
    Ngo(75, "Global Citizen", ["Global Citizen", "GlobalCitizen"])
  ]

  const Block16: seq<Ngo> := [
    Ngo(76, "Teach For America", ["Teach For America", "TFA"]),
    Ngo(77, "The Elders", ["The Elders"]),
    Ngo(78, "CARE UK", ["CARE UK"]),
    Ngo(79, "Doctors of the World", ["Doctors of the World", "M\U{E9}decins du Monde"]),
    Ngo(80, "Carter Center", ["Carter Center"])
  ]

  const Block17: seq<Ngo> := [
    Ngo(81, "UNICEF USA", ["UNICEF USA"]),
    Ngo(82, "Global Fund for Children", ["Global Fund for Children"]),
    Ngo(83, "The Climate Reality Project", ["Climate Reality Project"]),
    Ngo(84, "Sierra Club Foundation", ["Sierra Club Foundation"]),
    Ngo(85, "World Economic Forum", ["World Economic Forum", "WEF"])
  ]

  const Block18: seq<Ngo> := [
    Ngo(86, "Red Hat Foundation", ["Red Hat Foundation"]),
    Ngo(87, "The Aspen Institute", ["The Aspen Institute"]),
    Ngo(88, "The Rockefeller Foundation", ["Rockefeller Foundation"]),
    Ngo(89, "The Ford Foundation", ["Ford Foundation"]),
    Ngo(90, "The MacArthur Foundation", ["MacArthur Foundation"])
  ]

  const Block19: seq<Ngo> := [
    Ngo(91, "Open Society Foundations", ["Open Society Foundations", "OSF"]),
    Ngo(92, "Carnegie Corporation of New York", ["Carnegie Corporation of New York", "Carnegie Corporation"]),
    Ngo(93, "The Wallace Foundation", ["Wallace Foundation"]),
    Ngo(94, "The Andrew W. Mellon Foundation", ["Andrew W. Mellon Foundation", "Mellon Foundation"]),
    Ngo(95, "The William and Flora Hewlett Foundation", ["Hewlett Foundation", "William and Flora Hewlett Foundation"])
  ]

  const Block20: seq<Ngo> := [
    Ngo(96, "The Kresge Foundation", ["Kresge Foundation"]),
    Ngo(97, "The Walton Family Foundation", ["Walton Family Foundation"]),
    Ngo(98, "The Gordon and Betty Moore Foundation", ["Gordon and Betty Moore Foundation", "Moore Foundation"]),
    Ngo(99, "Bloomberg Philanthropies", ["Bloomberg Philanthropies", "Bloomberg Philanthropy"]),
    Ngo(100, "The David and Lucile Packard Foundation", ["David and Lucile Packard Foundation", "Packard Foundation"])
  ]

  const Block21: seq<Ngo> := [
    Ngo(101, "The Conrad N. Hilton Foundation", ["Conrad N. Hilton Foundation", "Hilton Foundation"]),
    Ngo(102, "The John D. and Catherine T. MacArthur Foundation", ["John D. and Catherine T. MacArthur Foundation", "MacArthur Foundation"]),
    Ngo(103, "The Simons Foundation", ["Simons Foundation"]),
    Ngo(104, "The Omidyar Network", ["Omidyar Network"]),
    Ngo(105, "The Pew Charitable Trusts", ["Pew Charitable Trusts", "Pew Trusts"])
  ]

  const Block22: seq<Ngo> := [
    Ngo(106, "The Gates Cambridge Trust", ["Gates Cambridge Trust"]),
    Ngo(107, "The Carnegie Corporation of New York", ["Carnegie Corporation of New York"]),
    Ngo(108, "The Open Society Foundations", ["Open Society Foundations", "OSF"]),
    Ngo(109, "World Animal Protection", ["World Animal Protection", "WAP"]),
    Ngo(110, "Transparency International", ["Transparency International", "TI"])
  ]

  const Block23: seq<Ngo> := [
    Ngo(111, "Save the Rhino", ["Save the Rhino", "Rhino Conservation"]),
    Ngo(112, "Rainforest Alliance", ["Rainforest Alliance", "RFA"]),
    Ngo(113, "Earthjustice", ["Earthjustice", "Earth Justice"]),
    Ngo(114, "GlobalGiving", ["GlobalGiving", "Global Giving"]),
    Ngo(115, "The Trevor Project", ["The Trevor Project"])
  ]

  const Block24: seq<Ngo> := [
    Ngo(116, "TechSoup", ["TechSoup"]),
    Ngo(117, "International Organization for Migration", ["International Organization for Migration", "IOM"]),
    Ngo(118, "The Hunger Project", ["The Hunger Project"]),
    Ngo(119, "ActionAid", ["ActionAid"]),
    Ngo(120, "Relief International", ["Relief International"])
  ]

  const Block25: seq<Ngo> := [
    Ngo(121, "The Peter G. Peterson Foundation", ["Peter G. Peterson Foundation"]),
    Ngo(122, "The Michael & Susan Dell Foundation", ["Michael & Susan Dell Foundation"]),
    Ngo(123, "The Skoll Foundation", ["Skoll Foundation"]),
    Ngo(124, "The Robert Wood Johnson Foundation", ["Robert Wood Johnson Foundation", "RWJF"]),
    Ngo(125, "The Broad Foundation", ["Broad Foundation"])
  ]

  const Group1: seq<Ngo> := Block1 + Block2 + Block3 + Block4 + Block5
  const Group2: seq<Ngo> := Block6 + Block7 + Block8 + Block9 + Block10
  const Group3: seq<Ngo> := Block11 + Block12 + Block13 + Block14 + Block15
  const Group4: seq<Ngo> := Block16 + Block17 + Block18 + Block19 + Block20
  const Group5: seq<Ngo> := Block21 + Block22 + Block23 + Block24 + Block25

  /** the registry in list order */
  const Registry: seq<Ngo> := Group1 + Group2 + Group3 + Group4 + Group5

  lemma Block1Shape()
    ensures |Block1| == 5 && WellNumbered(Block1, 1)
  {
  }

  lemma Block1Upper()
    ensures IdsWith(Block1, HasUpperName) == {2}
  {
    assert !HasUpperName(Block1[0]) by { assert IsLowerChar(Block1[0].name[17]); }
    assert HasUpperName(Block1[1]) by { assert IsUpperChar(Block1[1].name[5]); }
    assert !HasUpperName(Block1[2]) by { assert IsLowerChar(Block1[2].name[22]); }
    assert !HasUpperName(Block1[3]) by { assert IsLowerChar(Block1[3].name[18]); }
    assert !HasUpperName(Block1[4]) by { assert IsLowerChar(Block1[4].name[20]); }
    IdsWithOfFive(Block1, HasUpperName);
  }

  lemma Block1MacArthur()
    ensures Owners(Block1, "MacArthur Foundation") == {}
  {
  }

  lemma Block1OpenSociety()
    ensures Owners(Block1, "Open Society Foundations") == {}
  {
  }

  lemma Block1Osf()
    ensures Owners(Block1, "OSF") == {}
  {
  }

  lemma Block1Carnegie()
    ensures Owners(Block1, "Carnegie Corporation of New York") == {}
  {
  }

  lemma Block1Who()
    ensures Owners(Block1, "WHO") == {}
  {
  }

  lemma Block2Shape()
    ensures |Block2| == 5 && WellNumbered(Block2, 6)
  {
  }

  lemma Block2Upper()
    ensures IdsWith(Block2, HasUpperName) == {}
  {
    assert !HasUpperName(Block2[0]) by { assert IsLowerChar(Block2[0].name[23]); }
    assert !HasUpperName(Block2[1]) by { assert IsLowerChar(Block2[1].name[4]); }
    assert !HasUpperName(Block2[2]) by { assert IsLowerChar(Block2[2].name[14]); }
    assert !HasUpperName(Block2[3]) by { assert IsLowerChar(Block2[3].name[17]); }
    assert !HasUpperName(Block2[4]) by { assert IsLowerChar(Block2[4].name[29]); }
    IdsWithOfFive(Block2, HasUpperName);
  }

  lemma Block2MacArthur()
    ensures Owners(Block2, "MacArthur Foundation") == {}
  {
  }

  lemma Block2OpenSociety()
    ensures Owners(Block2, "Open Society Foundations") == {}
  {
  }

  lemma Block2Osf()
    ensures Owners(Block2, "OSF") == {}
  {
  }

  lemma Block2Carnegie()
    ensures Owners(Block2, "Carnegie Corporation of New York") == {}
  {
  }

  lemma Block2Who()
    ensures Owners(Block2, "WHO") == {}
  {
  }

  lemma Block3Shape()
    ensures |Block3| == 5 && WellNumbered(Block3, 11)
  {
  }

  lemma Block3Upper()
    ensures IdsWith(Block3, HasUpperName) == {12}
  {
    assert !HasUpperName(Block3[0]) by { assert IsLowerChar(Block3[0].name[19]); }
    assert HasUpperName(Block3[1]) by { assert IsUpperChar(Block3[1].name[3]); }
    assert !HasUpperName(Block3[2]) by { assert IsLowerChar(Block3[2].name[21]); }
    assert !HasUpperName(Block3[3]) by { assert IsLowerChar(Block3[3].name[19]); }
    assert !HasUpperName(Block3[4]) by { assert IsLowerChar(Block3[4].name[17]); }
    IdsWithOfFive(Block3, HasUpperName);
  }

  lemma Block3MacArthur()
    ensures Owners(Block3, "MacArthur Foundation") == {}
  {
  }

  lemma Block3OpenSociety()
    ensures Owners(Block3, "Open Society Foundations") == {}
  {
  }

  lemma Block3Osf()
    ensures Owners(Block3, "OSF") == {}
  {
  }

  lemma Block3Carnegie()
    ensures Owners(Block3, "Carnegie Corporation of New York") == {}
  {
  }

  lemma Block3Who()
    ensures Owners(Block3, "WHO") == {}
  {
  }

  lemma Block4Shape()
    ensures |Block4| == 5 && WellNumbered(Block4, 16)
  {
  }

  lemma Block4Upper()
    ensures IdsWith(Block4, HasUpperName) == {}
  {
    assert !HasUpperName(Block4[0]) by { assert IsLowerChar(Block4[0].name[19]); }
    assert !HasUpperName(Block4[1]) by { assert IsLowerChar(Block4[1].name[3]); }
    assert !HasUpperName(Block4[2]) by { assert IsLowerChar(Block4[2].name[30]); }
    assert !HasUpperName(Block4[3]) by { assert IsLowerChar(Block4[3].name[10]); }
    assert !HasUpperName(Block4[4]) by { assert IsLowerChar(Block4[4].name[28]); }
    IdsWithOfFive(Block4, HasUpperName);
  }

  lemma Block4MacArthur()
    ensures Owners(Block4, "MacArthur Foundation") == {}
  {
  }

  lemma Block4OpenSociety()
    ensures Owners(Block4, "Open Society Foundations") == {}
  {
  }

  lemma Block4Osf()
    ensures Owners(Block4, "OSF") == {}
  {
  }

  lemma Block4Carnegie()
    ensures Owners(Block4, "Carnegie Corporation of New York") == {}
  {
  }

  lemma Block4Who()
    ensures Owners(Block4, "WHO") == {}
  {
  }

  lemma Block5Shape()
    ensures |Block5| == 5 && WellNumbered(Block5, 21)
  {
  }

  lemma Block5Upper()
    ensures IdsWith(Block5, HasUpperName) == {25}
  {
    assert !HasUpperName(Block5[0]) by { assert IsLowerChar(Block5[0].name[19]); }
    assert !HasUpperName(Block5[1]) by { assert IsLowerChar(Block5[1].name[17]); }
    assert !HasUpperName(Block5[2]) by { assert IsLowerChar(Block5[2].name[11]); }
    assert !HasUpperName(Block5[3]) by { assert IsLowerChar(Block5[3].name[17]); }
    assert HasUpperName(Block5[4]) by { assert IsUpperChar(Block5[4].name[3]); }
    IdsWithOfFive(Block5, HasUpperName);
  }

  lemma Block5MacArthur()
    ensures Owners(Block5, "MacArthur Foundation") == {}
  {
  }

  lemma Block5OpenSociety()
    ensures Owners(Block5, "Open Society Foundations") == {}
  {
  }

  lemma Block5Osf()
    ensures Owners(Block5, "OSF") == {}
  {
  }

  lemma Block5Carnegie()
    ensures Owners(Block5, "Carnegie Corporation of New York") == {}
  {
  }

  lemma Block5Who()
    ensures Owners(Block5, "WHO") == {}
  {
  }

  lemma Block6Shape()
    ensures |Block6| == 5 && WellNumbered(Block6, 26)
  {
  }

  lemma Block6Upper()
    ensures IdsWith(Block6, HasUpperName) == {26, 28}
  {
    assert HasUpperName(Block6[0]) by { assert IsUpperChar(Block6[0].name[4]); }
    assert !HasUpperName(Block6[1]) by { assert IsLowerChar(Block6[1].name[63]); }
    assert HasUpperName(Block6[2]) by { assert IsUpperChar(Block6[2].name[7]); }
    assert !HasUpperName(Block6[3]) by { assert IsLowerChar(Block6[3].name[14]); }
    assert !HasUpperName(Block6[4]) by { assert IsLowerChar(Block6[4].name[26]); }
    IdsWithOfFive(Block6, HasUpperName);
  }

  lemma Block6MacArthur()
    ensures Owners(Block6, "MacArthur Foundation") == {}
  {
  }

  lemma Block6OpenSociety()
    ensures Owners(Block6, "Open Society Foundations") == {}
  {
  }

  lemma Block6Osf()
    ensures Owners(Block6, "OSF") == {}
  {
  }

  lemma Block6Carnegie()
    ensures Owners(Block6, "Carnegie Corporation of New York") == {}
  {
  }

  lemma Block6Who()
    ensures Owners(Block6, "WHO") == {}
  {
  }

  lemma Block7Shape()
    ensures |Block7| == 5 && WellNumbered(Block7, 31)
  {
  }

  lemma Block7Upper()
    ensures IdsWith(Block7, HasUpperName) == {32}
  {
    assert !HasUpperName(Block7[0]) by { assert IsLowerChar(Block7[0].name[14]); }
    assert HasUpperName(Block7[1]) by { assert IsUpperChar(Block7[1].name[3]); }
    assert !HasUpperName(Block7[2]) by { assert IsLowerChar(Block7[2].name[24]); }
    assert !HasUpperName(Block7[3]) by { assert IsLowerChar(Block7[3].name[7]); }
    assert !HasUpperName(Block7[4]) by { assert IsLowerChar(Block7[4].name[30]); }
    IdsWithOfFive(Block7, HasUpperName);
  }

  lemma Block7MacArthur()
    ensures Owners(Block7, "MacArthur Foundation") == {}
  {
  }

  lemma Block7OpenSociety()
    ensures Owners(Block7, "Open Society Foundations") == {}
  {
  }

  lemma Block7Osf()
    ensures Owners(Block7, "OSF") == {}
  {
  }

  lemma Block7Carnegie()
    ensures Owners(Block7, "Carnegie Corporation of New York") == {}
  {
  }

  lemma Block7Who()
    ensures Owners(Block7, "WHO") == {33}
  {
    assert ListsKeyword("WHO")(Block7[2]);
  }

  lemma Block8Shape()
    ensures |Block8| == 5 && WellNumbered(Block8, 36)
  {
  }

  lemma Block8Upper()
    ensures IdsWith(Block8, HasUpperName) == {}
  {
    assert !HasUpperName(Block8[0]) by { assert IsLowerChar(Block8[0].name[13]); }
    assert !HasUpperName(Block8[1]) by { assert IsLowerChar(Block8[1].name[16]); }
    assert !HasUpperName(Block8[2]) by { assert IsLowerChar(Block8[2].name[20]); }
    assert !HasUpperName(Block8[3]) by { assert IsLowerChar(Block8[3].name[25]); }
    assert !HasUpperName(Block8[4]) by { assert IsLowerChar(Block8[4].name[42]); }
    IdsWithOfFive(Block8, HasUpperName);
  }

  lemma Block8MacArthur()
    ensures Owners(Block8, "MacArthur Foundation") == {}
  {
  }

  lemma Block8OpenSociety()
    ensures Owners(Block8, "Open Society Foundations") == {}
  {
  }

  lemma Block8Osf()
    ensures Owners(Block8, "OSF") == {}
  {
  }

  lemma Block8Carnegie()
    ensures Owners(Block8, "Carnegie Corporation of New York") == {}
  {
  }

  lemma Block8Who()
    ensures Owners(Block8, "WHO") == {}
  {
  }

  lemma Block9Shape()
    ensures |Block9| == 5 && WellNumbered(Block9, 41)
  {
  }

  lemma Block9Upper()
    ensures IdsWith(Block9, HasUpperName) == {}
  {
    assert !HasUpperName(Block9[0]) by { assert IsLowerChar(Block9[0].name[10]); }
    assert !HasUpperName(Block9[1]) by { assert IsLowerChar(Block9[1].name[17]); }
    assert !HasUpperName(Block9[2]) by { assert IsLowerChar(Block9[2].name[14]); }
    assert !HasUpperName(Block9[3]) by { assert IsLowerChar(Block9[3].name[19]); }
    assert !HasUpperName(Block9[4]) by { assert IsLowerChar(Block9[4].name[20]); }
    IdsWithOfFive(Block9, HasUpperName);
  }

  lemma Block9MacArthur()
    ensures Owners(Block9, "MacArthur Foundation") == {}
  {
  }

  lemma Block9OpenSociety()
    ensures Owners(Block9, "Open Society Foundations") == {}
  {
  }

  lemma Block9Osf()
    ensures Owners(Block9, "OSF") == {}
  {
  }

  lemma Block9Carnegie()
    ensures Owners(Block9, "Carnegie Corporation of New York") == {}
  {
  }

  lemma Block9Who()
    ensures Owners(Block9, "WHO") == {}
  {
  }

  lemma Block10Shape()
    ensures |Block10| == 5 && WellNumbered(Block10, 46)
  {
  }

  lemma Block10Upper()
    ensures IdsWith(Block10, HasUpperName) == {49}
  {
    assert !HasUpperName(Block10[0]) by { assert IsLowerChar(Block10[0].name[26]); }
    assert !HasUpperName(Block10[1]) by { assert IsLowerChar(Block10[1].name[9]); }
    assert !HasUpperName(Block10[2]) by { assert IsLowerChar(Block10[2].name[9]); }
    assert HasUpperName(Block10[3]) by { assert IsUpperChar(Block10[3].name[3]); }
    assert !HasUpperName(Block10[4]) by { assert IsLowerChar(Block10[4].name[39]); }
    IdsWithOfFive(Block10, HasUpperName);
  }

  lemma Block10MacArthur()
    ensures Owners(Block10, "MacArthur Foundation") == {}
  {
  }

  lemma Block10OpenSociety()
    ensures Owners(Block10, "Open Society Foundations") == {}
  {
  }

  lemma Block10Osf()
    ensures Owners(Block10, "OSF") == {}
  {
  }

  lemma Block10Carnegie()
    ensures Owners(Block10, "Carnegie Corporation of New York") == {}
  {
  }

  lemma Block10Who()
    ensures Owners(Block10, "WHO") == {}
  {
  }

  lemma Block11Shape()
    ensures |Block11| == 5 && WellNumbered(Block11, 51)
  {
  }

  lemma Block11Upper()
    ensures IdsWith(Block11, HasUpperName) == {55}
  {
    assert !HasUpperName(Block11[0]) by { assert IsLowerChar(Block11[0].name[11]); }
    assert !HasUpperName(Block11[1]) by { assert IsLowerChar(Block11[1].name[25]); }
    assert !HasUpperName(Block11[2]) by { assert IsLowerChar(Block11[2].name[17]); }
    assert !HasUpperName(Block11[3]) by { assert IsLowerChar(Block11[3].name[36]); }
    assert HasUpperName(Block11[4]) by { assert IsUpperChar(Block11[4].name[7]); }
    IdsWithOfFive(Block11, HasUpperName);
  }

  lemma Block11MacArthur()
    ensures Owners(Block11, "MacArthur Foundation") == {}
  {
  }

  lemma Block11OpenSociety()
    ensures Owners(Block11, "Open Society Foundations") == {}
  {
  }

  lemma Block11Osf()
    ensures Owners(Block11, "OSF") == {}
  {
  }

  lemma Block11Carnegie()
    ensures Owners(Block11, "Carnegie Corporation of New York") == {}
  {
  }

  lemma Block11Who()
    ensures Owners(Block11, "WHO") == {}
  {
  }

  lemma Block12Shape()
    ensures |Block12| == 5 && WellNumbered(Block12, 56)
  {
  }

  lemma Block12Upper()
    ensures IdsWith(Block12, HasUpperName) == {}
  {
    assert !HasUpperName(Block12[0]) by { assert IsLowerChar(Block12[0].name[20]); }
    assert !HasUpperName(Block12[1]) by { assert IsLowerChar(Block12[1].name[32]); }
    assert !HasUpperName(Block12[2]) by { assert IsLowerChar(Block12[2].name[14]); }
    assert !HasUpperName(Block12[3]) by { assert IsLowerChar(Block12[3].name[9]); }
    assert !HasUpperName(Block12[4]) by { assert IsLowerChar(Block12[4].name[11]); }
    IdsWithOfFive(Block12, HasUpperName);
  }

  lemma Block12MacArthur()
    ensures Owners(Block12, "MacArthur Foundation") == {}
  {
  }

  lemma Block12OpenSociety()
    ensures Owners(Block12, "Open Society Foundations") == {}
  {
  }

  lemma Block12Osf()
    ensures Owners(Block12, "OSF") == {}
  {
  }

  lemma Block12Carnegie()
    ensures Owners(Block12, "Carnegie Corporation of New York") == {}
  {
  }

  lemma Block12Who()
    ensures Owners(Block12, "WHO") == {}
  {
  }

  lemma Block13Shape()
    ensures |Block13| == 5 && WellNumbered(Block13, 61)
  {
  }

  lemma Block13Upper()
    ensures IdsWith(Block13, HasUpperName) == {}
  {
    assert !HasUpperName(Block13[0]) by { assert IsLowerChar(Block13[0].name[23]); }
    assert !HasUpperName(Block13[1]) by { assert IsLowerChar(Block13[1].name[29]); }
    assert !HasUpperName(Block13[2]) by { assert IsLowerChar(Block13[2].name[12]); }
    assert !HasUpperName(Block13[3]) by { assert IsLowerChar(Block13[3].name[11]); }
    assert !HasUpperName(Block13[4]) by { assert IsLowerChar(Block13[4].name[14]); }
    IdsWithOfFive(Block13, HasUpperName);
  }

  lemma Block13MacArthur()
    ensures Owners(Block13, "MacArthur Foundation") == {}
  {
  }

  lemma Block13OpenSociety()
    ensures Owners(Block13, "Open Society Foundations") == {}
  {
  }

  lemma Block13Osf()
    ensures Owners(Block13, "OSF") == {}
  {
  }

  lemma Block13Carnegie()
    ensures Owners(Block13, "Carnegie Corporation of New York") == {}
  {
  }

  lemma Block13Who()
    ensures Owners(Block13, "WHO") == {}
  {
  }

  lemma Block14Shape()
    ensures |Block14| == 5 && WellNumbered(Block14, 66)
  {
  }

  lemma Block14Upper()
    ensures IdsWith(Block14, HasUpperName) == {67}
  {
    assert !HasUpperName(Block14[0]) by { assert IsLowerChar(Block14[0].name[17]); }
    assert HasUpperName(Block14[1]) by { assert IsUpperChar(Block14[1].name[2]); }
    assert !HasUpperName(Block14[2]) by { assert IsLowerChar(Block14[2].name[48]); }
    assert !HasUpperName(Block14[3]) by { assert IsLowerChar(Block14[3].name[24]); }
    assert !HasUpperName(Block14[4]) by { assert IsLowerChar(Block14[4].name[26]); }
    IdsWithOfFive(Block14, HasUpperName);
  }

  lemma Block14MacArthur()
    ensures Owners(Block14, "MacArthur Foundation") == {}
  {
  }

  lemma Block14OpenSociety()
    ensures Owners(Block14, "Open Society Foundations") == {}
  {
  }

  lemma Block14Osf()
    ensures Owners(Block14, "OSF") == {}
  {
  }

  lemma Block14Carnegie()
    ensures Owners(Block14, "Carnegie Corporation of New York") == {}
  {
  }

  lemma Block14Who()
    ensures Owners(Block14, "WHO") == {}
  {
  }

  lemma Block15Shape()
    ensures |Block15| == 5 && WellNumbered(Block15, 71)
  {
  }

  lemma Block15Upper()
    ensures IdsWith(Block15, HasUpperName) == {}
  {
    assert !HasUpperName(Block15[0]) by { assert IsLowerChar(Block15[0].name[33]); }
    assert !HasUpperName(Block15[1]) by { assert IsLowerChar(Block15[1].name[28]); }
    assert !HasUpperName(Block15[2]) by { assert IsLowerChar(Block15[2].name[16]); }
    assert !HasUpperName(Block15[3]) by { assert IsLowerChar(Block15[3].name[20]); }
    assert !HasUpperName(Block15[4]) by { assert IsLowerChar(Block15[4].name[13]); }
    IdsWithOfFive(Block15, HasUpperName);
  }

  lemma Block15MacArthur()
    ensures Owners(Block15, "MacArthur Foundation") == {}
  {
  }

  lemma Block15OpenSociety()
    ensures Owners(Block15, "Open Society Foundations") == {}
  {
  }

  lemma Block15Osf()
    ensures Owners(Block15, "OSF") == {}
  {
  }

  lemma Block15Carnegie()
    ensures Owners(Block15, "Carnegie Corporation of New York") == {}
  {
  }

  lemma Block15Who()
    ensures Owners(Block15, "WHO") == {}
  {
  }

  lemma Block16Shape()
    ensures |Block16| == 5 && WellNumbered(Block16, 76)
  {
  }

  lemma Block16Upper()
    ensures IdsWith(Block16, HasUpperName) == {78}
  {
    assert !HasUpperName(Block16[0]) by { assert IsLowerChar(Block16[0].name[16]); }
    assert !HasUpperName(Block16[1]) by { assert IsLowerChar(Block16[1].name[9]); }
    assert HasUpperName(Block16[2]) by { assert IsUpperChar(Block16[2].name[6]); }
    assert !HasUpperName(Block16[3]) by { assert IsLowerChar(Block16[3].name[19]); }
    assert !HasUpperName(Block16[4]) by { assert IsLowerChar(Block16[4].name[12]); }
    IdsWithOfFive(Block16, HasUpperName);
  }

  lemma Block16MacArthur()
    ensures Owners(Block16, "MacArthur Foundation") == {}
  {
  }

  lemma Block16OpenSociety()
    ensures Owners(Block16, "Open Society Foundations") == {}
  {
  }

  lemma Block16Osf()
    ensures Owners(Block16, "OSF") == {}
  {
  }

  lemma Block16Carnegie()
    ensures Owners(Block16, "Carnegie Corporation of New York") == {}
  {
  }

  lemma Block16Who()
    ensures Owners(Block16, "WHO") == {}
  {
  }

  lemma Block17Shape()
    ensures |Block17| == 5 && WellNumbered(Block17, 81)
  {
  }

  lemma Block17Upper()
    ensures IdsWith(Block17, HasUpperName) == {81}
  {
    assert HasUpperName(Block17[0]) by { assert IsUpperChar(Block17[0].name[9]); }
    assert !HasUpperName(Block17[1]) by { assert IsLowerChar(Block17[1].name[23]); }
    assert !HasUpperName(Block17[2]) by { assert IsLowerChar(Block17[2].name[26]); }
    assert !HasUpperName(Block17[3]) by { assert IsLowerChar(Block17[3].name[21]); }
    assert !HasUpperName(Block17[4]) by { assert IsLowerChar(Block17[4].name[19]); }
    IdsWithOfFive(Block17, HasUpperName);
  }

  lemma Block17MacArthur()
    ensures Owners(Block17, "MacArthur Foundation") == {}
  {
  }

  lemma Block17OpenSociety()
    ensures Owners(Block17, "Open Society Foundations") == {}
  {
  }

  lemma Block17Osf()
    ensures Owners(Block17, "OSF") == {}
  {
  }

  lemma Block17Carnegie()
    ensures Owners(Block17, "Carnegie Corporation of New York") == {}
  {
  }

  lemma Block17Who()
    ensures Owners(Block17, "WHO") == {}
  {
  }

  lemma Block18Shape()
    ensures |Block18| == 5 && WellNumbered(Block18, 86)
  {
  }

  lemma Block18Upper()
    ensures IdsWith(Block18, HasUpperName) == {}
  {
    assert !HasUpperName(Block18[0]) by { assert IsLowerChar(Block18[0].name[17]); }
    assert !HasUpperName(Block18[1]) by { assert IsLowerChar(Block18[1].name[18]); }
    assert !HasUpperName(Block18[2]) by { assert IsLowerChar(Block18[2].name[25]); }
    assert !HasUpperName(Block18[3]) by { assert IsLowerChar(Block18[3].name[18]); }
    assert !HasUpperName(Block18[4]) by { assert IsLowerChar(Block18[4].name[23]); }
    IdsWithOfFive(Block18, HasUpperName);
  }

  lemma Block18MacArthur()
    ensures Owners(Block18, "MacArthur Foundation") == {90}
  {
    assert ListsKeyword("MacArthur Foundation")(Block18[4]);
  }

  lemma Block18OpenSociety()
    ensures Owners(Block18, "Open Society Foundations") == {}
  {
  }

  lemma Block18Osf()
    ensures Owners(Block18, "OSF") == {}
  {
  }

  lemma Block18Carnegie()
    ensures Owners(Block18, "Carnegie Corporation of New York") == {}
  {
  }

  lemma Block18Who()
    ensures Owners(Block18, "WHO") == {}
  {
  }

  lemma Block19Shape()
    ensures |Block19| == 5 && WellNumbered(Block19, 91)
  {
  }

  lemma Block19Upper()
    ensures IdsWith(Block19, HasUpperName) == {}
  {
    assert !HasUpperName(Block19[0]) by { assert IsLowerChar(Block19[0].name[23]); }
    assert !HasUpperName(Block19[1]) by { assert IsLowerChar(Block19[1].name[31]); }
    assert !HasUpperName(Block19[2]) by { assert IsLowerChar(Block19[2].name[21]); }
    assert !HasUpperName(Block19[3]) by { assert IsLowerChar(Block19[3].name[30]); }
    assert !HasUpperName(Block19[4]) by { assert IsLowerChar(Block19[4].name[39]); }
    IdsWithOfFive(Block19, HasUpperName);
  }

  lemma Block19MacArthur()
    ensures Owners(Block19, "MacArthur Foundation") == {}
  {
  }

  lemma Block19OpenSociety()
    ensures Owners(Block19, "Open Society Foundations") == {91}
  {
    assert ListsKeyword("Open Society Foundations")(Block19[0]);
  }

  lemma Block19Osf()
    ensures Owners(Block19, "OSF") == {91}
  {
    assert ListsKeyword("OSF")(Block19[0]);
  }

  lemma Block19Carnegie()
    ensures Owners(Block19, "Carnegie Corporation of New York") == {92}
  {
    assert ListsKeyword("Carnegie Corporation of New York")(Block19[1]);
  }

  lemma Block19Who()
    ensures Owners(Block19, "WHO") == {}
  {
  }

  lemma Block20Shape()
    ensures |Block20| == 5 && WellNumbered(Block20, 96)
  {
  }

  lemma Block20Upper()
    ensures IdsWith(Block20, HasUpperName) == {}
  {
    assert !HasUpperName(Block20[0]) by { assert IsLowerChar(Block20[0].name[20]); }
    assert !HasUpperName(Block20[1]) by { assert IsLowerChar(Block20[1].name[27]); }
    assert !HasUpperName(Block20[2]) by { assert IsLowerChar(Block20[2].name[36]); }
    assert !HasUpperName(Block20[3]) by { assert IsLowerChar(Block20[3].name[23]); }
    assert !HasUpperName(Block20[4]) by { assert IsLowerChar(Block20[4].name[38]); }
    IdsWithOfFive(Block20, HasUpperName);
  }

  lemma Block20MacArthur()
    ensures Owners(Block20, "MacArthur Foundation") == {}
  {
  }

  lemma Block20OpenSociety()
    ensures Owners(Block20, "Open Society Foundations") == {}
  {
  }

  lemma Block20Osf()
    ensures Owners(Block20, "OSF") == {}
  {
  }

  lemma Block20Carnegie()
    ensures Owners(Block20, "Carnegie Corporation of New York") == {}
  {
  }

  lemma Block20Who()
    ensures Owners(Block20, "WHO") == {}
  {
  }

  lemma Block21Shape()
    ensures |Block21| == 5 && WellNumbered(Block21, 101)
  {
  }

  lemma Block21Upper()
    ensures IdsWith(Block21, HasUpperName) == {}
  {
    assert !HasUpperName(Block21[0]) by { assert IsLowerChar(Block21[0].name[30]); }
    assert !HasUpperName(Block21[1]) by { assert IsLowerChar(Block21[1].name[48]); }
    assert !HasUpperName(Block21[2]) by { assert IsLowerChar(Block21[2].name[20]); }
    assert !HasUpperName(Block21[3]) by { assert IsLowerChar(Block21[3].name[18]); }
    assert !HasUpperName(Block21[4]) by { assert IsLowerChar(Block21[4].name[24]); }
    IdsWithOfFive(Block21, HasUpperName);
  }

  lemma Block21MacArthur()
    ensures Owners(Block21, "MacArthur Foundation") == {102}
  {
    assert ListsKeyword("MacArthur Foundation")(Block21[1]);
  }

  lemma Block21OpenSociety()
    ensures Owners(Block21, "Open Society Foundations") == {}
  {
  }

  lemma Block21Osf()
    ensures Owners(Block21, "OSF") == {}
  {
  }

  lemma Block21Carnegie()
    ensures Owners(Block21, "Carnegie Corporation of New York") == {}
  {
  }

  lemma Block21Who()
    ensures Owners(Block21, "WHO") == {}
  {
  }

  lemma Block22Shape()
    ensures |Block22| == 5 && WellNumbered(Block22, 106)
  {
  }

  lemma Block22Upper()
    ensures IdsWith(Block22, HasUpperName) == {}
  {
    assert !HasUpperName(Block22[0]) by { assert IsLowerChar(Block22[0].name[24]); }
    assert !HasUpperName(Block22[1]) by { assert IsLowerChar(Block22[1].name[35]); }
    assert !HasUpperName(Block22[2]) by { assert IsLowerChar(Block22[2].name[27]); }
    assert !HasUpperName(Block22[3]) by { assert IsLowerChar(Block22[3].name[22]); }
    assert !HasUpperName(Block22[4]) by { assert IsLowerChar(Block22[4].name[25]); }
    IdsWithOfFive(Block22, HasUpperName);
  }

  lemma Block22MacArthur()
    ensures Owners(Block22, "MacArthur Foundation") == {}
  {
  }

  lemma Block22OpenSociety()
    ensures Owners(Block22, "Open Society Foundations") == {108}
  {
    assert ListsKeyword("Open Society Foundations")(Block22[2]);
  }

  lemma Block22Osf()
    ensures Owners(Block22, "OSF") == {108}
  {
    assert ListsKeyword("OSF")(Block22[2]);
  }

  lemma Block22Carnegie()
    ensures Owners(Block22, "Carnegie Corporation of New York") == {107}
  {
    assert ListsKeyword("Carnegie Corporation of New York")(Block22[1]);
  }

  lemma Block22Who()
    ensures Owners(Block22, "WHO") == {}
  {
  }

  lemma Block23Shape()
    ensures |Block23| == 5 && WellNumbered(Block23, 111)
  {
  }

  lemma Block23Upper()
    ensures IdsWith(Block23, HasUpperName) == {}
  {
    assert !HasUpperName(Block23[0]) by { assert IsLowerChar(Block23[0].name[13]); }
    assert !HasUpperName(Block23[1]) by { assert IsLowerChar(Block23[1].name[18]); }
    assert !HasUpperName(Block23[2]) by { assert IsLowerChar(Block23[2].name[11]); }
    assert !HasUpperName(Block23[3]) by { assert IsLowerChar(Block23[3].name[11]); }
    assert !HasUpperName(Block23[4]) by { assert IsLowerChar(Block23[4].name[17]); }
    IdsWithOfFive(Block23, HasUpperName);
  }

  lemma Block23MacArthur()
    ensures Owners(Block23, "MacArthur Foundation") == {}
  {
  }

  lemma Block23OpenSociety()
    ensures Owners(Block23, "Open Society Foundations") == {}
  {
  }

  lemma Block23Osf()
    ensures Owners(Block23, "OSF") == {}
  {
  }

  lemma Block23Carnegie()
    ensures Owners(Block23, "Carnegie Corporation of New York") == {}
  {
  }

  lemma Block23Who()
    ensures Owners(Block23, "WHO") == {}
  {
  }

  lemma Block24Shape()
    ensures |Block24| == 5 && WellNumbered(Block24, 116)
  {
  }

  lemma Block24Upper()
    ensures IdsWith(Block24, HasUpperName) == {}
  {
    assert !HasUpperName(Block24[0]) by { assert IsLowerChar(Block24[0].name[7]); }
    assert !HasUpperName(Block24[1]) by { assert IsLowerChar(Block24[1].name[39]); }
    assert !HasUpperName(Block24[2]) by { assert IsLowerChar(Block24[2].name[17]); }
    assert !HasUpperName(Block24[3]) by { assert IsLowerChar(Block24[3].name[8]); }
    assert !HasUpperName(Block24[4]) by { assert IsLowerChar(Block24[4].name[19]); }
    IdsWithOfFive(Block24, HasUpperName);
  }

  lemma Block24MacArthur()
    ensures Owners(Block24, "MacArthur Foundation") == {}
  {
  }

  lemma Block24OpenSociety()
    ensures Owners(Block24, "Open Society Foundations") == {}
  {
  }

  lemma Block24Osf()
    ensures Owners(Block24, "OSF") == {}
  {
  }

  lemma Block24Carnegie()
    ensures Owners(Block24, "Carnegie Corporation of New York") == {}
  {
  }

  lemma Block24Who()
    ensures Owners(Block24, "WHO") == {}
  {
  }

  lemma Block25Shape()
    ensures |Block25| == 5 && WellNumbered(Block25, 121)
  {
  }

  lemma Block25Upper()
    ensures IdsWith(Block25, HasUpperName) == {}
  {
    assert !HasUpperName(Block25[0]) by { assert IsLowerChar(Block25[0].name[31]); }
    assert !HasUpperName(Block25[1]) by { assert IsLowerChar(Block25[1].name[34]); }
    assert !HasUpperName(Block25[2]) by { assert IsLowerChar(Block25[2].name[19]); }
    assert !HasUpperName(Block25[3]) by { assert IsLowerChar(Block25[3].name[33]); }
    assert !HasUpperName(Block25[4]) by { assert IsLowerChar(Block25[4].name[19]); }
    IdsWithOfFive(Block25, HasUpperName);
  }

  lemma Block25MacArthur()
    ensures Owners(Block25, "MacArthur Foundation") == {}
  {
  }

  lemma Block25OpenSociety()
    ensures Owners(Block25, "Open Society Foundations") == {}
  {
  }

  lemma Block25Osf()
    ensures Owners(Block25, "OSF") == {}
  {
  }

  lemma Block25Carnegie()
    ensures Owners(Block25, "Carnegie Corporation of New York") == {}
  {
  }

  lemma Block25Who()
    ensures Owners(Block25, "WHO") == {}
  {
  }

  lemma Group1Numbered()
    ensures |Group1| == 25 && WellNumbered(Group1, 1)
  {
    Block1Shape();
    Block2Shape();
    Block3Shape();
    Block4Shape();
    Block5Shape();
    NumberedFive(Block1, Block2, Block3, Block4, Block5, 1, 5);
  }

  lemma Group1UpperNames()
    ensures IdsWith(Group1, HasUpperName) == {2, 12, 25}
  {
    Block1Upper();
    Block2Upper();
    Block3Upper();
    Block4Upper();
    Block5Upper();
    IdsWithFive(Block1, Block2, Block3, Block4, Block5, HasUpperName);
  }

  lemma Group1MacArthur()
    ensures Owners(Group1, "MacArthur Foundation") == {}
  {
    Block1MacArthur();
    Block2MacArthur();
    Block3MacArthur();
    Block4MacArthur();
    Block5MacArthur();
    IdsWithFive(Block1, Block2, Block3, Block4, Block5, ListsKeyword("MacArthur Foundation"));
  }

  lemma Group1OpenSociety()
    ensures Owners(Group1, "Open Society Foundations") == {}
  {
    Block1OpenSociety();
    Block2OpenSociety();
    Block3OpenSociety();
    Block4OpenSociety();
    Block5OpenSociety();
    IdsWithFive(Block1, Block2, Block3, Block4, Block5, ListsKeyword("Open Society Foundations"));
  }

  lemma Group1Osf()
    ensures Owners(Group1, "OSF") == {}
  {
    Block1Osf();
    Block2Osf();
    Block3Osf();
    Block4Osf();
    Block5Osf();
    IdsWithFive(Block1, Block2, Block3, Block4, Block5, ListsKeyword("OSF"));
  }

  lemma Group1Carnegie()
    ensures Owners(Group1, "Carnegie Corporation of New York") == {}
  {
    Block1Carnegie();
    Block2Carnegie();
    Block3Carnegie();
    Block4Carnegie();
    Block5Carnegie();
    IdsWithFive(Block1, Block2, Block3, Block4, Block5, ListsKeyword("Carnegie Corporation of New York"));
  }

  lemma Group1Who()
    ensures Owners(Group1, "WHO") == {}
  {
    Block1Who();
    Block2Who();
    Block3Who();
    Block4Who();
    Block5Who();
    IdsWithFive(Block1, Block2, Block3, Block4, Block5, ListsKeyword("WHO"));
  }

  lemma Group2Numbered()
    ensures |Group2| == 25 && WellNumbered(Group2, 26)
  {
    Block6Shape();
    Block7Shape();
    Block8Shape();
    Block9Shape();
    Block10Shape();
    NumberedFive(Block6, Block7, Block8, Block9, Block10, 26, 5);
  }

  lemma Group2UpperNames()
    ensures IdsWith(Group2, HasUpperName) == {26, 28, 32, 49}
  {
    Block6Upper();
    Block7Upper();
    Block8Upper();
    Block9Upper();
    Block10Upper();
    IdsWithFive(Block6, Block7, Block8, Block9, Block10, HasUpperName);
  }

  lemma Group2MacArthur()
    ensures Owners(Group2, "MacArthur Foundation") == {}
  {
    Block6MacArthur();
    Block7MacArthur();
    Block8MacArthur();
    Block9MacArthur();
    Block10MacArthur();
    IdsWithFive(Block6, Block7, Block8, Block9, Block10, ListsKeyword("MacArthur Foundation"));
  }

  lemma Group2OpenSociety()
    ensures Owners(Group2, "Open Society Foundations") == {}
  {
    Block6OpenSociety();
    Block7OpenSociety();
    Block8OpenSociety();
    Block9OpenSociety();
    Block10OpenSociety();
    IdsWithFive(Block6, Block7, Block8, Block9, Block10, ListsKeyword("Open Society Foundations"));
  }

  lemma Group2Osf()
    ensures Owners(Group2, "OSF") == {}
  {
    Block6Osf();
    Block7Osf();
    Block8Osf();
    Block9Osf();
    Block10Osf();
    IdsWithFive(Block6, Block7, Block8, Block9, Block10, ListsKeyword("OSF"));
  }

  lemma Group2Carnegie()
    ensures Owners(Group2, "Carnegie Corporation of New York") == {}
  {
    Block6Carnegie();
    Block7Carnegie();
    Block8Carnegie();
    Block9Carnegie();
    Block10Carnegie();
    IdsWithFive(Block6, Block7, Block8, Block9, Block10, ListsKeyword("Carnegie Corporation of New York"));
  }

  lemma Group2Who()
    ensures Owners(Group2, "WHO") == {33}
  {
    Block6Who();
    Block7Who();
    Block8Who();
    Block9Who();
    Block10Who();
    IdsWithFive(Block6, Block7, Block8, Block9, Block10, ListsKeyword("WHO"));
  }

  lemma Group3Numbered()
    ensures |Group3| == 25 && WellNumbered(Group3, 51)
  {
    Block11Shape();
    Block12Shape();
    Block13Shape();
    Block14Shape();
    Block15Shape();
    NumberedFive(Block11, Block12, Block13, Block14, Block15, 51, 5);
  }

  lemma Group3UpperNames()
    ensures IdsWith(Group3, HasUpperName) == {55, 67}
  {
    Block11Upper();
    Block12Upper();
    Block13Upper();
    Block14Upper();
    Block15Upper();
    IdsWithFive(Block11, Block12, Block13, Block14, Block15, HasUpperName);
  }

  lemma Group3MacArthur()
    ensures Owners(Group3, "MacArthur Foundation") == {}
  {
    Block11MacArthur();
    Block12MacArthur();
    Block13MacArthur();
    Block14MacArthur();
    Block15MacArthur();
    IdsWithFive(Block11, Block12, Block13, Block14, Block15, ListsKeyword("MacArthur Foundation"));
  }

  lemma Group3OpenSociety()
    ensures Owners(Group3, "Open Society Foundations") == {}
  {
    Block11OpenSociety();
    Block12OpenSociety();
    Block13OpenSociety();
    Block14OpenSociety();
    Block15OpenSociety();
    IdsWithFive(Block11, Block12, Block13, Block14, Block15, ListsKeyword("Open Society Foundations"));
  }

  lemma Group3Osf()
    ensures Owners(Group3, "OSF") == {}
  {
    Block11Osf();
    Block12Osf();
    Block13Osf();
    Block14Osf();
    Block15Osf();
    IdsWithFive(Block11, Block12, Block13, Block14, Block15, ListsKeyword("OSF"));
  }

  lemma Group3Carnegie()
    ensures Owners(Group3, "Carnegie Corporation of New York") == {}
  {
    Block11Carnegie();
    Block12Carnegie();
    Block13Carnegie();
    Block14Carnegie();
    Block15Carnegie();
    IdsWithFive(Block11, Block12, Block13, Block14, Block15, ListsKeyword("Carnegie Corporation of New York"));
  }

  lemma Group3Who()
    ensures Owners(Group3, "WHO") == {}
  {
    Block11Who();
    Block12Who();
    Block13Who();
    Block14Who();
    Block15Who();
    IdsWithFive(Block11, Block12, Block13, Block14, Block15, ListsKeyword("WHO"));
  }

  lemma Group4Numbered()
    ensures |Group4| == 25 && WellNumbered(Group4, 76)
  {
    Block16Shape();
    Block17Shape();
    Block18Shape();
    Block19Shape();
    Block20Shape();
    NumberedFive(Block16, Block17, Block18, Block19, Block20, 76, 5);
  }

  lemma Group4UpperNames()
    ensures IdsWith(Group4, HasUpperName) == {78, 81}
  {
    Block16Upper();
    Block17Upper();
    Block18Upper();
    Block19Upper();
    Block20Upper();
    IdsWithFive(Block16, Block17, Block18, Block19, Block20, HasUpperName);
  }

  lemma Group4MacArthur()
    ensures Owners(Group4, "MacArthur Foundation") == {90}
  {
    Block16MacArthur();
    Block17MacArthur();
    Block18MacArthur();
    Block19MacArthur();
    Block20MacArthur();
    IdsWithFive(Block16, Block17, Block18, Block19, Block20, ListsKeyword("MacArthur Foundation"));
  }

  lemma Group4OpenSociety()
    ensures Owners(Group4, "Open Society Foundations") == {91}
  {
    Block16OpenSociety();
    Block17OpenSociety();
    Block18OpenSociety();
    Block19OpenSociety();
    Block20OpenSociety();
    IdsWithFive(Block16, Block17, Block18, Block19, Block20, ListsKeyword("Open Society Foundations"));
  }

  lemma Group4Osf()
    ensures Owners(Group4, "OSF") == {91}
  {
    Block16Osf();
    Block17Osf();
    Block18Osf();
    Block19Osf();
    Block20Osf();
    IdsWithFive(Block16, Block17, Block18, Block19, Block20, ListsKeyword("OSF"));
  }

  lemma Group4Carnegie()
    ensures Owners(Group4, "Carnegie Corporation of New York") == {92}
  {
    Block16Carnegie();
    Block17Carnegie();
    Block18Carnegie();
    Block19Carnegie();
    Block20Carnegie();
    IdsWithFive(Block16, Block17, Block18, Block19, Block20, ListsKeyword("Carnegie Corporation of New York"));
  }

  lemma Group4Who()
    ensures Owners(Group4, "WHO") == {}
  {
    Block16Who();
    Block17Who();
    Block18Who();
    Block19Who();
    Block20Who();
    IdsWithFive(Block16, Block17, Block18, Block19, Block20, ListsKeyword("WHO"));
  }

  lemma Group5Numbered()
    ensures |Group5| == 25 && WellNumbered(Group5, 101)
  {
    Block21Shape();
    Block22Shape();
    Block23Shape();
    Block24Shape();
    Block25Shape();
    NumberedFive(Block21, Block22, Block23, Block24, Block25, 101, 5);
  }

  lemma Group5UpperNames()
    ensures IdsWith(Group5, HasUpperName) == {}
  {
    Block21Upper();
    Block22Upper();
    Block23Upper();
    Block24Upper();
    Block25Upper();
    IdsWithFive(Block21, Block22, Block23, Block24, Block25, HasUpperName);
  }

  lemma Group5MacArthur()
    ensures Owners(Group5, "MacArthur Foundation") == {102}
  {
    Block21MacArthur();
    Block22MacArthur();
    Block23MacArthur();
    Block24MacArthur();
    Block25MacArthur();
    IdsWithFive(Block21, Block22, Block23, Block24, Block25, ListsKeyword("MacArthur Foundation"));
  }

  lemma Group5OpenSociety()
    ensures Owners(Group5, "Open Society Foundations") == {108}
  {
    Block21OpenSociety();
    Block22OpenSociety();
    Block23OpenSociety();
    Block24OpenSociety();
    Block25OpenSociety();
    IdsWithFive(Block21, Block22, Block23, Block24, Block25, ListsKeyword("Open Society Foundations"));
  }

  lemma Group5Osf()
    ensures Owners(Group5, "OSF") == {108}
  {
    Block21Osf();
    Block22Osf();
    Block23Osf();
    Block24Osf();
    Block25Osf();
    IdsWithFive(Block21, Block22, Block23, Block24, Block25, ListsKeyword("OSF"));
  }

  lemma Group5Carnegie()
    ensures Owners(Group5, "Carnegie Corporation of New York") == {107}
  {
    Block21Carnegie();
    Block22Carnegie();
    Block23Carnegie();
    Block24Carnegie();
    Block25Carnegie();
    IdsWithFive(Block21, Block22, Block23, Block24, Block25, ListsKeyword("Carnegie Corporation of New York"));
  }

  lemma Group5Who()
    ensures Owners(Group5, "WHO") == {}
  {
    Block21Who();
    Block22Who();
    Block23Who();
    Block24Who();
    Block25Who();
    IdsWithFive(Block21, Block22, Block23, Block24, Block25, ListsKeyword("WHO"));
  }

  /** ids are 1..125 in list order, so distinct, and no keyword list is empty */
  lemma RegistryNumbered()
    ensures |Registry| == 125 && WellNumbered(Registry, 1)
  {
    Group1Numbered();
    Group2Numbered();
    Group3Numbered();
    Group4Numbered();
    Group5Numbered();
    NumberedFive(Group1, Group2, Group3, Group4, Group5, 1, 25);
  }

  /** the names passing `str.isupper` are exactly those of `UpperNameIds` */
  lemma RegistryUpperNames()
    ensures IdsWith(Registry, HasUpperName) == UpperNameIds
  {
    assert UpperNameIds == {2, 12, 25} + {26, 28, 32, 49} + {55, 67} + {78, 81} + {};
    Group1UpperNames();
    Group2UpperNames();
    Group3UpperNames();
    Group4UpperNames();
    Group5UpperNames();
    IdsWithFive(Group1, Group2, Group3, Group4, Group5, HasUpperName);
  }

  /** an entry's name passes `str.isupper` exactly when its id is one of `UpperNameIds` */
  lemma UpperNameIff(i: int)
    requires 0 <= i < |Registry|
    ensures IsUpper(Registry[i].name) <==> Registry[i].id in UpperNameIds
  {
    RegistryNumbered();
    RegistryUpperNames();
    IdsWithMembership(Registry, 1, HasUpperName);
  }

  /** "MacArthur Foundation" is listed by NGOs 90 and 102 */
  lemma OwnersOfMacArthur()
    ensures Owners(Registry, "MacArthur Foundation") == {90, 102}
  {
    Group1MacArthur();
    Group2MacArthur();
    Group3MacArthur();
    Group4MacArthur();
    Group5MacArthur();
    IdsWithFive(Group1, Group2, Group3, Group4, Group5, ListsKeyword("MacArthur Foundation"));
  }

  /** "Open Society Foundations" is listed by NGOs 91 and 108 */
  lemma OwnersOfOpenSociety()
    ensures Owners(Registry, "Open Society Foundations") == {91, 108}
  {
    Group1OpenSociety();
    Group2OpenSociety();
    Group3OpenSociety();
    Group4OpenSociety();
    Group5OpenSociety();
    IdsWithFive(Group1, Group2, Group3, Group4, Group5, ListsKeyword("Open Society Foundations"));
  }

  /** "OSF" is listed by NGOs 91 and 108 */
  lemma OwnersOfOsf()
    ensures Owners(Registry, "OSF") == {91, 108}
  {
    Group1Osf();
    Group2Osf();
    Group3Osf();
    Group4Osf();
    Group5Osf();
    IdsWithFive(Group1, Group2, Group3, Group4, Group5, ListsKeyword("OSF"));
  }

  /** "Carnegie Corporation of New York" is listed by NGOs 92 and 107 */
  lemma OwnersOfCarnegie()
    ensures Owners(Registry, "Carnegie Corporation of New York") == {92, 107}
  {
    Group1Carnegie();
    Group2Carnegie();
    Group3Carnegie();
    Group4Carnegie();
    Group5Carnegie();
    IdsWithFive(Group1, Group2, Group3, Group4, Group5, ListsKeyword("Carnegie Corporation of New York"));
  }

  /** "WHO" is listed by NGO 33 alone */
  lemma OwnersOfWho()
    ensures Owners(Registry, "WHO") == {33}
  {
    Group1Who();
    Group2Who();
    Group3Who();
    Group4Who();
    Group5Who();
    IdsWithFive(Group1, Group2, Group3, Group4, Group5, ListsKeyword("WHO"));
  }

  /** Every keyword of NGO 90 is listed again by NGO 102, and every keyword of NGO 91
      by NGO 108; the later entries come further down the list. */
  lemma LaterEntriesRepeatKeywords()
    ensures |Registry| == 125
    ensures Registry[89].id == 90 && Registry[101].id == 102
    ensures Registry[90].id == 91 && Registry[107].id == 108
    ensures forall k | k in Registry[89].keywords :: k in Registry[101].keywords
    ensures forall k | k in Registry[90].keywords :: k in Registry[107].keywords
  {
    RegistryNumbered();
    Entry90Repeated();
    Entry91Repeated();
  }

  lemma Entry90Repeated()
    ensures |Registry| == 125 && Registry[89] == Block18[4] && Registry[101] == Block21[1]
    ensures forall k | k in Registry[89].keywords :: k in Registry[101].keywords
  {
    RegistryNumbered();
    Group4Numbered();
    Group5Numbered();
    Block18Shape();
    Block21Shape();
    assert Registry[89] == Group4[14] == Block18[4];
    assert Registry[101] == Group5[1] == Block21[1];
    KeywordsCovered(Block18[4].keywords, Block21[1].keywords);
  }

  lemma Entry91Repeated()
    ensures |Registry| == 125 && Registry[90] == Block19[0] && Registry[107] == Block22[2]
    ensures forall k | k in Registry[90].keywords :: k in Registry[107].keywords
  {
    RegistryNumbered();
    Group4Numbered();
    Group5Numbered();
    Block19Shape();
    Block22Shape();
    assert Registry[90] == Group4[15] == Block19[0];
    assert Registry[107] == Group5[7] == Block22[2];
    KeywordsCovered(Block19[0].keywords, Block22[2].keywords);
  }

  lemma KeywordsCovered(a: seq<string>, b: seq<string>)
    requires forall i | 0 <= i < |a| :: a[i] in b
    ensures forall k | k in a :: k in b
  {
  }
}
