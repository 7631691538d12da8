/** The certificate that 2^255 - 19 is prime: elements of prime order with all their powers
    by squaring, from the primes that trial division finds upwards. */
module PrimeCertificate {
  import opened Fermat
  import opened Primality

  lemma Prime2()
    ensures IsPrime(2)
  {
    PrimeByTrial(2);
  }

  lemma Prime5()
    ensures IsPrime(5)
  {
    PrimeByTrial(5);
  }

  lemma Prime7()
    ensures IsPrime(7)
  {
    PrimeByTrial(7);
  }

  lemma Prime11()
    ensures IsPrime(11)
  {
    PrimeByTrial(11);
  }

  lemma Prime19()
    ensures IsPrime(19)
  {
    PrimeByTrial(19);
  }

  lemma Prime83()
    ensures IsPrime(83)
  {
    PrimeByTrial(83);
  }

  lemma Prime127()
    ensures IsPrime(127)
  {
    PrimeByTrial(127);
  }

  lemma Prime353At2()
    ensures HasOrder(353, 2, 352, 176)
  {
    hide Exp, Divides;
    ZerothPower(353, 352);
    var n := 0;
    n := Next(353, 352, n, 1,
      0, 0, 0, 0, 0, 0, 1, 0,
      1, 1, 1, 1, 1, 1, 352, 1);
    HasInverse(353, 352, 176, 175);
  }

  lemma Prime353At11()
    ensures HasOrder(353, 11, 58, 192)
  {
    hide Exp, Divides;
    ZerothPower(353, 58);
    var n := 0;
    n := Next(353, 58, n, 1,
      0, 0, 0, 0, 1, 0, 1, 1,
      1, 1, 1, 1, 58, 187, 217, 1);
    HasInverse(353, 58, 192, 31);
  }

  lemma Prime353()
    ensures IsPrime(353)
  {
    Prime2();
    Prime353At2();
    Prime11();
    Prime353At11();
    hide IsPrime, HasOrder;
    PrimeByTwo(353, 2, 352, 176, 11, 58, 192);
  }

  lemma Prime991At5()
    ensures HasOrder(991, 5, 799, 267)
  {
    hide Exp, Divides;
    ZerothPower(991, 799);
    var n := 0;
    n := Next(991, 799, n, 1,
      0, 0, 0, 0, 0, 1, 0, 1,
      1, 1, 1, 1, 1, 799, 197, 1);
    HasInverse(991, 799, 267, 215);
  }

  lemma Prime991At11()
    ensures HasOrder(991, 11, 50, 809)
  {
    hide Exp, Divides;
    ZerothPower(991, 50);
    var n := 0;
    n := Next(991, 50, n, 1,
      0, 0, 0, 0, 1, 0, 1, 1,
      1, 1, 1, 1, 50, 518, 42, 1);
    HasInverse(991, 50, 809, 40);
  }

  lemma Prime991()
    ensures IsPrime(991)
  {
    Prime5();
    Prime991At5();
    Prime11();
    Prime991At11();
    hide IsPrime, HasOrder;
    PrimeByTwo(991, 5, 799, 267, 11, 50, 809);
  }

  lemma Prime9463At19()
    ensures HasOrder(9463, 19, 6272, 9128)
  {
    hide Exp, Divides;
    ZerothPower(9463, 6272);
    var n := 0;
    n := Next(9463, 6272, n, 1,
      0, 0, 0, 1, 0, 0, 1, 1,
      1, 1, 1, 6272, 293, 682, 4088, 1);
    HasInverse(9463, 6272, 9128, 6049);
  }

  lemma Prime9463At83()
    ensures HasOrder(9463, 83, 6023, 11)
  {
    hide Exp, Divides;
    ZerothPower(9463, 6023);
    var n := 0;
    n := Next(9463, 6023, n, 1,
      0, 1, 0, 1, 0, 0, 1, 1,
      1, 6023, 4850, 3275, 4046, 8589, 9178, 1);
    HasInverse(9463, 6023, 11, 7);
  }

  lemma Prime9463()
    ensures IsPrime(9463)
  {
    Prime19();
    Prime9463At19();
    Prime83();
    Prime9463At83();
    hide IsPrime, HasOrder;
    PrimeByTwo(9463, 19, 6272, 9128, 83, 6023, 11);
  }

  lemma Prime37853At9463()
    ensures HasOrder(37853, 9463, 16, 32806)
  {
    hide Exp, Divides;
    ZerothPower(37853, 16);
    var n := 0;
    n := Next(37853, 16, n, 1,
      0, 0, 1, 0, 0, 1, 0, 0,
      1, 1, 16, 256, 27683, 4946, 9878, 27703);
    n := Next(37853, 16, n, 27703,
      1, 1, 1, 1, 0, 1, 1, 1,
      13262, 22578, 33581, 1702, 19976, 21559, 9463, 1);
    HasInverse(37853, 16, 32806, 13);
  }

  lemma Prime37853()
    ensures IsPrime(37853)
  {
    Prime9463();
    Prime37853At9463();
    hide IsPrime, HasOrder;
    PrimeByOne(37853, 9463, 16, 32806);
  }

  lemma Prime75707At37853()
    ensures HasOrder(75707, 37853, 4, 25236)
  {
    hide Exp, Divides;
    ZerothPower(75707, 4);
    var n := 0;
    n := Next(75707, 4, n, 1,
      1, 0, 0, 1, 0, 0, 1, 1,
      4, 16, 256, 35023, 5715, 31508, 32692, 44580);
    n := Next(75707, 4, n, 44580,
      1, 1, 0, 1, 1, 1, 0, 1,
      43479, 2897, 64839, 42016, 33720, 55575, 37853, 1);
    HasInverse(75707, 4, 25236, 1);
  }

  lemma Prime75707()
    ensures IsPrime(75707)
  {
    Prime37853();
    Prime75707At37853();
    hide IsPrime, HasOrder;
    PrimeByOne(75707, 37853, 4, 25236);
  }

  lemma Prime8574133At7()
    ensures HasOrder(8574133, 7, 7470406, 207671)
  {
    hide Exp, Divides;
    ZerothPower(8574133, 7470406);
    var n := 0;
    n := Next(8574133, 7470406, n, 1,
      0, 0, 0, 0, 0, 1, 1, 1,
      1, 1, 1, 1, 1, 7470406, 3751096, 1);
    HasInverse(8574133, 7470406, 207671, 180938);
  }

  lemma Prime8574133At991()
    ensures HasOrder(8574133, 991, 3435729, 1014251)
  {
    hide Exp, Divides;
    ZerothPower(8574133, 3435729);
    var n := 0;
    n := Next(8574133, 3435729, n, 1,
      0, 0, 0, 0, 0, 0, 1, 1,
      1, 1, 1, 1, 1, 1, 3435729, 7537281);
    n := Next(8574133, 3435729, n, 7537281,
      1, 1, 0, 1, 1, 1, 1, 1,
      8150342, 6784828, 5398426, 1416919, 6487758, 5036138, 7676092, 1);
    HasInverse(8574133, 3435729, 1014251, 406419);
  }

  lemma Prime8574133()
    ensures IsPrime(8574133)
  {
    Prime7();
    Prime8574133At7();
    Prime991();
    Prime8574133At991();
    hide IsPrime, HasOrder;
    PrimeByTwo(8574133, 7, 7470406, 207671, 991, 3435729, 1014251);
  }

  lemma Prime51BitsAt127()
    ensures HasOrder(1919519569386763, 127, 576774792492622, 1870148777187772)
  {
    hide Exp, Divides;
    ZerothPower(1919519569386763, 576774792492622);
    var n := 0;
    n := Next(1919519569386763, 576774792492622, n, 1,
      0, 1, 1, 1, 1, 1, 1, 1,
      1, 576774792492622, 1357890764181271, 759458092768680, 78454425872112, 1320549840644032, 1693956375729866, 1);
    HasInverse(1919519569386763, 576774792492622, 1870148777187772, 561939919808897);
  }

  lemma Prime51BitsAt8574133Part1()
    ensures IsPower(1919519569386763, 1059928654987441, 33492, 1461878117886092)
  {
    hide IsPower;
    ZerothPower(1919519569386763, 1059928654987441);
    var n := 0;
    n := Next(1919519569386763, 1059928654987441, n, 1,
      1, 0, 0, 0, 0, 0, 1, 0,
      1059928654987441, 378404018618345, 144327877361125, 177743405145843, 1005663795910123, 1708865658966864,
      776602915755014, 1731416200464907);
    n := Next(1919519569386763, 1059928654987441, n, 1731416200464907,
      1, 1, 0, 1, 0, 1, 0, 0,
      1895116067335826, 474005533779101, 883469443155450, 1815542347366093, 725436537604109, 1094828973022372,
      1896718276386001, 1461878117886092);
  }

  lemma Prime51BitsAt8574133Part2()
    ensures IsPower(1919519569386763, 1059928654987441, 8574133, 1)
  {
    hide IsPower;
    Prime51BitsAt8574133Part1();
    var n := 33492;
    n := Next(1919519569386763, 1059928654987441, n, 1461878117886092,
      1, 0, 1, 1, 0, 1, 0, 1,
      1781594674427169, 690624347585068, 545245894553514, 310417877454699, 734771387221666, 1572851233659424,
      960002919039115, 1);
  }

  lemma Prime51BitsAt8574133()
    ensures HasOrder(1919519569386763, 8574133, 1059928654987441, 1290547218147893)
  {
    hide Exp, Divides;
    Prime51BitsAt8574133Part2();
    HasInverse(1919519569386763, 1059928654987441, 1290547218147893, 712619969572013);
  }

  lemma Prime51Bits()
    ensures IsPrime(1919519569386763)
  {
    Prime127();
    Prime51BitsAt127();
    Prime8574133();
    Prime51BitsAt8574133();
    hide IsPrime, HasOrder;
    PrimeByTwo(1919519569386763, 127, 576774792492622, 1870148777187772, 8574133, 1059928654987441, 1290547218147893);
  }

  lemma Prime116BitsAt75707Part1()
    ensures IsPower(75445702479781427272750846543864801, 58781699294900834553279248901967638, 295,
      43606569418259492473421754424002376)
  {
    hide IsPower;
    ZerothPower(75445702479781427272750846543864801, 58781699294900834553279248901967638);
    var n := 0;
    n := Next(75445702479781427272750846543864801, 58781699294900834553279248901967638, n, 1,
      0, 0, 0, 0, 0, 0, 0, 1,
      1, 1, 1, 1, 1, 1, 1, 58781699294900834553279248901967638);
    n := Next(75445702479781427272750846543864801, 58781699294900834553279248901967638, n,
      58781699294900834553279248901967638,
      0, 0, 1, 0, 0, 1, 1, 1,
      19272071963980053171874812410858062, 10857113732875552884559949348183714, 37861386965902158392126361241741285,
      67447059549274550976172462060274558, 22845150612647514685709838606502843, 13032174792409769475902886973017269,
      56396309446115810308722588662736980, 43606569418259492473421754424002376);
  }

  lemma Prime116BitsAt75707Part2()
    ensures IsPower(75445702479781427272750846543864801, 58781699294900834553279248901967638, 75707, 1)
  {
    hide IsPower;
    Prime116BitsAt75707Part1();
    var n := 295;
    n := Next(75445702479781427272750846543864801, 58781699294900834553279248901967638, n,
      43606569418259492473421754424002376,
      1, 0, 1, 1, 1, 0, 1, 1,
      41247452127839348557193559971532426, 60273352786765568393059048004767158, 17935781077466366980090080633886685,
      16430842475225517589341425812002149, 36588309395503799027174081950811862, 46635804452740277961578082113988866,
      28334687151944976347191379370218119, 1);
  }

  lemma Prime116BitsAt75707()
    ensures HasOrder(75445702479781427272750846543864801, 75707, 58781699294900834553279248901967638,
      8986369574106813140303762220009459)
  {
    hide Exp, Divides;
    Prime116BitsAt75707Part2();
    HasInverse(75445702479781427272750846543864801, 58781699294900834553279248901967638,
      8986369574106813140303762220009459, 7001513097443202581781503170404782);
  }

  lemma Prime116BitsAt51BitsPart1()
    ensures IsPower(75445702479781427272750846543864801, 56747016255153332959347766392083459, 1745,
      44881019911104472380550725301959314)
  {
    hide IsPower;
    ZerothPower(75445702479781427272750846543864801, 56747016255153332959347766392083459);
    var n := 0;
    n := Next(75445702479781427272750846543864801, 56747016255153332959347766392083459, n, 1,
      0, 0, 0, 0, 0, 1, 1, 0,
      1, 1, 1, 1, 1, 56747016255153332959347766392083459, 11341082394838988818629815250146301,
      155959012102660387425813834929579);
    n := Next(75445702479781427272750846543864801, 56747016255153332959347766392083459, n,
      155959012102660387425813834929579,
      1, 1, 0, 1, 0, 0, 0, 1,
      7545578198456006756186225815011423, 43794930860357342515802492599103949, 50950134277550388139274988234818420,
      27202643174427731855640178633001884, 14015100988314359741352330069668649, 36987265762985529521771229289714401,
      71882887051537174864842870124245457, 44881019911104472380550725301959314);
  }

  lemma Prime116BitsAt51BitsPart2()
    ensures IsPower(75445702479781427272750846543864801, 56747016255153332959347766392083459, 114412282,
      14117643248705449579903760955255389)
  {
    hide IsPower;
    Prime116BitsAt51BitsPart1();
    var n := 1745;
    n := Next(75445702479781427272750846543864801, 56747016255153332959347766392083459, n,
      44881019911104472380550725301959314,
      1, 1, 0, 0, 1, 0, 1, 0,
      15332043035409065617477834235825705, 234780451390292275924586330158888, 71735501108764540400206980997411423,
      15937525546816407118415523347669111, 7605517797477906931605389924957601, 74189065243340561207304552770060299,
      6496845521168618958985737294532398, 42568191075887745383587395894444019);
    n := Next(75445702479781427272750846543864801, 56747016255153332959347766392083459, n,
      42568191075887745383587395894444019,
      1, 1, 1, 1, 1, 0, 1, 0,
      8216326081215438965527877440581602, 16007527225797350459071559410994340, 9610508646292348821329953612318136,
      72353342897573626660186343144851463, 15459152947841197990123288567953340, 8442880623864133217694160874123694,
      11033137157637951626521046683391638, 14117643248705449579903760955255389);
  }

  lemma Prime116BitsAt51BitsPart3()
    ensures IsPower(75445702479781427272750846543864801, 56747016255153332959347766392083459, 7498123317917,
      71831935470169421365666802305933708)
  {
    hide IsPower;
    Prime116BitsAt51BitsPart2();
    var n := 114412282;
    n := Next(75445702479781427272750846543864801, 56747016255153332959347766392083459, n,
      14117643248705449579903760955255389,
      0, 0, 0, 1, 0, 0, 1, 0,
      53209439489543348731343165578673496, 45026339722915023718361148453374059, 47927644182980611104525402396880376,
      26687327869095617149515767253405403, 42597155697666840953833477356857092, 37915366180115829456528539631290147,
      12324778730413845035736401498443190, 8700384576254058316344741335546960);
    n := Next(75445702479781427272750846543864801, 56747016255153332959347766392083459, n,
      8700384576254058316344741335546960,
      1, 0, 0, 1, 1, 1, 0, 1,
      45709518917089588620588014544046913, 68456139577989548683126738097420020, 22136646226253176392192384474909496,
      13956964227800546053326728666811534, 64697059003945931065259437622409475, 45231450859940263498859075549876677,
      48911793286778530787684392282451517, 71831935470169421365666802305933708);
  }

  lemma Prime116BitsAt51BitsPart4()
    ensures IsPower(75445702479781427272750846543864801, 56747016255153332959347766392083459, 1919519569386763, 1)
  {
    hide IsPower;
    Prime116BitsAt51BitsPart3();
    var n := 7498123317917;
    n := Next(75445702479781427272750846543864801, 56747016255153332959347766392083459, n,
      71831935470169421365666802305933708,
      0, 0, 0, 0, 1, 0, 1, 1,
      34344241017514213795232369998009253, 39861800344642687294082677661917528, 17322343490433587533140966339310698,
      12483880574092517505129590836317004, 54542960005674162123395106310618746, 28238288389390818070653075202219453,
      53532795656621825491113725491088788, 1);
  }

  lemma Prime116BitsAt51Bits()
    ensures HasOrder(75445702479781427272750846543864801, 1919519569386763, 56747016255153332959347766392083459,
      74602835786463724888147869570305675)
  {
    hide Exp, Divides;
    Prime116BitsAt51BitsPart4();
    HasInverse(75445702479781427272750846543864801, 56747016255153332959347766392083459,
      74602835786463724888147869570305675, 56113048138023733339996598108928949);
  }

  lemma Prime116Bits()
    ensures IsPrime(75445702479781427272750846543864801)
  {
    Prime75707();
    Prime116BitsAt75707();
    Prime51Bits();
    Prime116BitsAt51Bits();
    hide IsPrime, HasOrder;
    PrimeByTwo(75445702479781427272750846543864801, 75707, 58781699294900834553279248901967638,
      8986369574106813140303762220009459, 1919519569386763, 56747016255153332959347766392083459,
      74602835786463724888147869570305675);
  }

  lemma Prime236BitsAt353()
    ensures HasOrder(74058212732561358302231226437062788676166966415465897661863160754340907, 353,
      8562916886866218785688304546164188478888058893729309188831496247839076,
      37940283535957283147790493383286696582099159842122763948555891970476459)
  {
    hide Exp, Divides;
    ZerothPower(74058212732561358302231226437062788676166966415465897661863160754340907, 8562916886866218785688304546164188478888058893729309188831496247839076);
    var n := 0;
    n := Next(74058212732561358302231226437062788676166966415465897661863160754340907,
      8562916886866218785688304546164188478888058893729309188831496247839076, n, 1,
      0, 0, 0, 0, 0, 0, 0, 1,
      1, 1, 1, 1, 1, 1, 1, 8562916886866218785688304546164188478888058893729309188831496247839076);
    n := Next(74058212732561358302231226437062788676166966415465897661863160754340907,
      8562916886866218785688304546164188478888058893729309188831496247839076, n,
      8562916886866218785688304546164188478888058893729309188831496247839076,
      0, 1, 1, 0, 0, 0, 0, 1,
      16153155050223087298160014462763671619986142323395781531433756842368703,
      25171928313862840063030770210551396004168855366508115988049527562160009,
      53380830016128662912109928654360594796415752176364461903178265429104804,
      44834681646896416774739443742377987341720075798897526609092454803933452,
      67130183245633195639869939918442703710504314834311865919213873480129168,
      38818018837063819385421431524313588415600254480646167217742265151203685,
      1249425937017005171791187917337941369870552391118378404367688045443375, 1);
    HasInverse(74058212732561358302231226437062788676166966415465897661863160754340907,
      8562916886866218785688304546164188478888058893729309188831496247839076,
      37940283535957283147790493383286696582099159842122763948555891970476459,
      4386812516739286907093083275457056104889941688880599415971985667035232);
  }

  lemma Prime236BitsAt116BitsPart1()
    ensures IsPower(74058212732561358302231226437062788676166966415465897661863160754340907,
      69490809710348678725736597923071784769591275419387514694139338586948360, 3719,
      15459224745017810788352643921931952037489605334639773072259534817348370)
  {
    hide IsPower;
    ZerothPower(74058212732561358302231226437062788676166966415465897661863160754340907, 69490809710348678725736597923071784769591275419387514694139338586948360);
    var n := 0;
    n := Next(74058212732561358302231226437062788676166966415465897661863160754340907,
      69490809710348678725736597923071784769591275419387514694139338586948360, n, 1,
      0, 0, 0, 0, 1, 1, 1, 0,
      1, 1, 1, 1, 69490809710348678725736597923071784769591275419387514694139338586948360,
      60088572800817055067699822372808465038996750913542726491088342583516430,
      12146079979694244760788242387473291469587429348895797694501720504168483,
      2395651831899443575619999089234687095966297154770387525027912120116590);
    n := Next(74058212732561358302231226437062788676166966415465897661863160754340907,
      69490809710348678725736597923071784769591275419387514694139338586948360, n,
      2395651831899443575619999089234687095966297154770387525027912120116590,
      1, 0, 0, 0, 0, 1, 1, 1,
      43721059054021941007937620727309150161093363790991491324210488256659733,
      54145366084523822447349556193522347720892246474823042548156911831397736,
      11284178899928758595452112261148706928403038374904792524681719258534535,
      65005703843471046884297048267651581560333448911250758560582020233644526,
      19725819712346748675443769062338017613349506663441072692576982044880952,
      16488791084382246799063329195349597831915365803818537886827378575255069,
      60520719854243219452359807267076029475540889845657328400153334185602050,
      15459224745017810788352643921931952037489605334639773072259534817348370);
  }

  lemma Prime236BitsAt116BitsPart2()
    ensures IsPower(74058212732561358302231226437062788676166966415465897661863160754340907,
      69490809710348678725736597923071784769591275419387514694139338586948360, 243778212,
      34956416377924708812584833391066731331428334105073926156463017554867765)
  {
    hide IsPower;
    Prime236BitsAt116BitsPart1();
    var n := 3719;
    n := Next(74058212732561358302231226437062788676166966415465897661863160754340907,
      69490809710348678725736597923071784769591275419387514694139338586948360, n,
      15459224745017810788352643921931952037489605334639773072259534817348370,
      1, 1, 0, 0, 0, 0, 1, 0,
      28898954463404599452705114139140607843227380482184701809133096180111205,
      44386420042930672904774800204028633739195555525872125164314896662021219,
      59228798659852483538777554761405857106818981195051448333249571419647034,
      49988289520951304755462861377473370203768246459590314323104548528054391,
      37661333353264301021608172432500049613005408045974469237840209302286578,
      70980303981236952471606078841106998093533045672561211122371820332354763,
      15504786470342720572006793299412239246961055792330727722137379079153213,
      70800302450674573892742726391040867568412593492343041149342563322990053);
    n := Next(74058212732561358302231226437062788676166966415465897661863160754340907,
      69490809710348678725736597923071784769591275419387514694139338586948360, n,
      70800302450674573892742726391040867568412593492343041149342563322990053,
      1, 0, 1, 0, 0, 1, 0, 0,
      3813330949319903746706357158824799547867432834979888866162030837075565,
      54457054016747637761234044828742479419451705898635219166543719720497970,
      43016147267044533255360330744923395071930668403343685849810606499003547,
      45548416654163662946989229590980918867446862091683458246820881766362212,
      50362897778357678881159979551316732957488773334104321548699067459594939,
      30138998045167067039545138789380605446470916367358942309560691737030924,
      44458325802544415260310141788221946128684192994289115076160292050921982,
      34956416377924708812584833391066731331428334105073926156463017554867765);
  }

  lemma Prime236BitsAt116BitsPart3()
    ensures IsPower(74058212732561358302231226437062788676166966415465897661863160754340907,
      69490809710348678725736597923071784769591275419387514694139338586948360, 15976248932280,
      31505606371679734915597632626915222924733724867874634384297152427674762)
  {
    hide IsPower;
    Prime236BitsAt116BitsPart2();
    var n := 243778212;
    n := Next(74058212732561358302231226437062788676166966415465897661863160754340907,
      69490809710348678725736597923071784769591275419387514694139338586948360, n,
      34956416377924708812584833391066731331428334105073926156463017554867765,
      0, 1, 1, 1, 0, 1, 1, 1,
      27063767240421245371670393497775576037049557763079395928471369014354921,
      24627844351702883214247671479365326121165235476687372841128841614065553,
      33462177856732312977482458949185793226312159699037618458221659049652557,
      60522204641388360257719954407151554074121441222322640975335301043935729,
      66494777883818425524571068794604990268042630633811135201786230449410435,
      4418043689444550588193089361604960770901480851736057515784393458278752,
      70026358427040506751005012594322903354664875418879215560212674228316401,
      5233083480857771156401381539959552528946055228533057878759786677202459);
    n := Next(74058212732561358302231226437062788676166966415465897661863160754340907,
      69490809710348678725736597923071784769591275419387514694139338586948360, n,
      5233083480857771156401381539959552528946055228533057878759786677202459,
      1, 0, 1, 1, 1, 0, 0, 0,
      58761858112128581606698526888167103783755522459499880568752279973281978,
      9115332237757384932281554698061847565289252530121841209344886891477265,
      55772034321670566900961724857498522248902638185328895211401788113265314,
      28155963719885292663869233263185011440794308128056499501030933989264660,
      39029411345767429855283388972154723937832219281437205361763690687083932,
      32876229480256621926417853433990232096703252779879402308502689519174468,
      7963069614644238283459393797668488914944186349773571909586209491550851,
      31505606371679734915597632626915222924733724867874634384297152427674762);
  }

  lemma Prime236BitsAt116BitsPart4()
    ensures IsPower(74058212732561358302231226437062788676166966415465897661863160754340907,
      69490809710348678725736597923071784769591275419387514694139338586948360, 1047019450025907617,
      5262655384154029339887369427438655103143598368955218141797589714005615)
  {
    hide IsPower;
    Prime236BitsAt116BitsPart3();
    var n := 15976248932280;
    n := Next(74058212732561358302231226437062788676166966415465897661863160754340907,
      69490809710348678725736597923071784769591275419387514694139338586948360, n,
      31505606371679734915597632626915222924733724867874634384297152427674762,
      0, 0, 0, 1, 0, 1, 0, 1,
      521996684128122800450994722304361214880888938588269984063213587430265,
      63622491301712469240719337677697986037203019750541906203034889293871082,
      56259855649652985023487455234066437022742588223661817081389133021764288,
      39592860730417117421109109325925042521510364406505185451266831930566809,
      19025033299264162242865288013985535389942198835586416267748497141776647,
      5906885040421737832385902041286875095156901290711012408705425971392033,
      60688311841524180538260234487814259969280552838343943316980635116625826,
      28309188993743864354119995794692672907098942770400917878836700263464505);
    n := Next(74058212732561358302231226437062788676166966415465897661863160754340907,
      69490809710348678725736597923071784769591275419387514694139338586948360, n,
      28309188993743864354119995794692672907098942770400917878836700263464505,
      1, 0, 1, 0, 0, 0, 0, 1,
      60542823618953760195985956460082226097793212992085384377238442965085667,
      26143839111559215195727422264990294832303013692299729171496339606897102,
      15089693157574510382182701161636976077402364812960693399877747156618459,
      25395140090164848658330976235476322931644535928932287388579706368372375,
      12668898356788410963166880372496557892454171381630445606479836339163411,
      55439294398990933576200016024163585161698407644495546410110660003105498,
      48158632485780896101307869594086028138883932934278980787520389481349380,
      5262655384154029339887369427438655103143598368955218141797589714005615);
  }

  lemma Prime236BitsAt116BitsPart5()
    ensures IsPower(74058212732561358302231226437062788676166966415465897661863160754340907,
      69490809710348678725736597923071784769591275419387514694139338586948360, 68617466676897881618743,
      58629963836264783547180002017400022820953712434667027232132231095850507)
  {
    hide IsPower;
    Prime236BitsAt116BitsPart4();
    var n := 1047019450025907617;
    n := Next(74058212732561358302231226437062788676166966415465897661863160754340907,
      69490809710348678725736597923071784769591275419387514694139338586948360, n,
      5262655384154029339887369427438655103143598368955218141797589714005615,
      0, 1, 1, 1, 1, 0, 0, 1,
      53527649568209001782109899888253346421370061626086870202323502455126844,
      28741354823994296104102599167852568318234805925763761286590825576274052,
      70306694236446224497553090461427935672663011880187344383308312900988002,
      6058161326686104506509767362518466438300810243177755962935241661215327,
      8561294054536115214763048862812563300850391688772331354866046657087286,
      36781484586013188291994815198667327962455988113257514883499633424325472,
      19477574820838436447262613960184437708484853736358682987912313020055604,
      33534202839170675392774773078084590756052566323445909790810864890538693);
    n := Next(74058212732561358302231226437062788676166966415465897661863160754340907,
      69490809710348678725736597923071784769591275419387514694139338586948360, n,
      33534202839170675392774773078084590756052566323445909790810864890538693,
      0, 0, 1, 1, 0, 1, 1, 1,
      51616557159329087214336911584915183548063457314543452683716923892542357,
      7399279194160524617355845866512131580960267693093438452628761309589737,
      5933479754957687115263889334557200918118611157100847521435238470274640,
      51968074544915443050853184026991512074198152344691996686766403611619794,
      63824172049869067758371739205746588224430630807102992312863351353180600,
      11741091190541849402442408807575640090437838923264796719928274115084710,
      59228104365960871589726723090521178529080881482093050408438963449782131,
      58629963836264783547180002017400022820953712434667027232132231095850507);
  }

  lemma Prime236BitsAt116BitsPart6()
    ensures IsPower(74058212732561358302231226437062788676166966415465897661863160754340907,
      69490809710348678725736597923071784769591275419387514694139338586948360, 4496914296137179569765975865,
      13343515644713718985950547620931362457704974308825894258439671891400686)
  {
    hide IsPower;
    Prime236BitsAt116BitsPart5();
    var n := 68617466676897881618743;
    n := Next(74058212732561358302231226437062788676166966415465897661863160754340907,
      69490809710348678725736597923071784769591275419387514694139338586948360, n,
      58629963836264783547180002017400022820953712434667027232132231095850507,
      1, 0, 0, 0, 0, 1, 1, 1,
      9609591384533456727184507870268536842446415018177214894865471534977656,
      5518158153721761316414653698950850966518108126749063920385876136067924,
      39134881298050836457439882271746409895979812372998356443380991277985109,
      2357229829368336086363968184068480706041449792849514555233597382899395,
      70048830873628163489751038714850340948888408567514897645778867870445420,
      16367628016440380218608147792250637123016603750901998476124299141028312,
      72673651261861536175686475248798047186166162359656255055487502527389771,
      43477568222200666162815720758861920635987876099241236114146871915643184);
    n := Next(74058212732561358302231226437062788676166966415465897661863160754340907,
      69490809710348678725736597923071784769591275419387514694139338586948360, n,
      43477568222200666162815720758861920635987876099241236114146871915643184,
      0, 0, 1, 1, 1, 0, 0, 1,
      70726800137517028945052418957015574868200704304142002994171876303422437,
      13425488488152914968327258939250946223593136639521399437396685170183724,
      65875989959565106116157440672307734624877495937618734181800857916576860,
      28751713256252279953017188645486945203257454578351364225077138433204435,
      49048791545928503446991499418642506651376789147592086617207039224318778,
      29830384705951221689350282562048135494180079748340173133392523922768806,
      70779221516830014532028755164764554906423245664872226016442655510776673,
      13343515644713718985950547620931362457704974308825894258439671891400686);
  }

  lemma Prime236BitsAt116BitsPart7()
    ensures IsPower(74058212732561358302231226437062788676166966415465897661863160754340907,
      69490809710348678725736597923071784769591275419387514694139338586948360, 294709775311646200284182994311971,
      72445856303582737268265764553588218104962561695651867502817892122723462)
  {
    hide IsPower;
    Prime236BitsAt116BitsPart6();
    var n := 4496914296137179569765975865;
    n := Next(74058212732561358302231226437062788676166966415465897661863160754340907,
      69490809710348678725736597923071784769591275419387514694139338586948360, n,
      13343515644713718985950547620931362457704974308825894258439671891400686,
      0, 1, 0, 1, 1, 0, 1, 1,
      30922993883467338952396632951182357453347135762627428385299862561916620,
      23402695734552683400455183129959257897885927750734406470861750166462124,
      20318828662040728653205584238680791815082056623166991293171589060093447,
      73559081625808744828472315670605024424302882386835939047348511341645948,
      55425548822881768762782103190096078353747189688382871308340960791767624,
      60482700084958343193604755511764808881061662758304802174614941319599656,
      40852399532862371118675251678767133373962111330341709305892624660455264,
      15151217314024759360594537935714382483680489456364192473979144464918530);
    n := Next(74058212732561358302231226437062788676166966415465897661863160754340907,
      69490809710348678725736597923071784769591275419387514694139338586948360, n,
      15151217314024759360594537935714382483680489456364192473979144464918530,
      0, 0, 1, 0, 0, 0, 1, 1,
      39249534954968383205318994974143953668846356667305428427434957341157166,
      18056134178495012569833871164394590282059854967675292156989643458782119,
      47423558883384396741351968237643840278403913843019483683827773286633305,
      28926930436698826442651590268352887552066052455340698769046093842516466,
      59514756208547018225988258314315604871175999231794748916913292596231479,
      33181212105214845361569297259871291135272380886917483804238504061780098,
      38488019720988126202545473782025695460388893290946876613681746821203094,
      72445856303582737268265764553588218104962561695651867502817892122723462);
  }

  lemma Prime236BitsAt116BitsPart8()
    ensures IsPower(74058212732561358302231226437062788676166966415465897661863160754340907,
      69490809710348678725736597923071784769591275419387514694139338586948360, 75445702479781427272750846543864801, 1)
  {
    hide IsPower;
    Prime236BitsAt116BitsPart7();
    var n := 294709775311646200284182994311971;
    n := Next(74058212732561358302231226437062788676166966415465897661863160754340907,
      69490809710348678725736597923071784769591275419387514694139338586948360, n,
      72445856303582737268265764553588218104962561695651867502817892122723462,
      1, 1, 1, 0, 0, 0, 0, 1,
      21245508397163562972210216720433768351455504912581162466780804319735939,
      12907812885971884836785182254276701148673432393349214887251598086222170,
      2745984390310550488677559837647962143635610521992583723983751628425589,
      67910354579507421028615363730533684601932902935596694567711991427550383,
      39285681072268432588821901806463419609608610912967932440633128830786009,
      5744487928750228590013537295726309742386549567459486389957134087710586,
      7511338993929206140307100490863447871524741664769441442882292903982789, 1);
  }

  lemma Prime236BitsAt116Bits()
    ensures HasOrder(74058212732561358302231226437062788676166966415465897661863160754340907,
      75445702479781427272750846543864801, 69490809710348678725736597923071784769591275419387514694139338586948360,
      70463328703800545008217672123162676565183935400628861884889913886334520)
  {
    hide Exp, Divides;
    Prime236BitsAt116BitsPart8();
    HasInverse(74058212732561358302231226437062788676166966415465897661863160754340907,
      69490809710348678725736597923071784769591275419387514694139338586948360,
      70463328703800545008217672123162676565183935400628861884889913886334520,
      66117633491858138461393741777649859022484251587227054915412604379442197);
  }

  lemma Prime236Bits()
    ensures IsPrime(74058212732561358302231226437062788676166966415465897661863160754340907)
  {
    Prime353();
    Prime236BitsAt353();
    Prime116Bits();
    Prime236BitsAt116Bits();
    hide IsPrime, HasOrder;
    PrimeByTwo(74058212732561358302231226437062788676166966415465897661863160754340907, 353,
      8562916886866218785688304546164188478888058893729309188831496247839076,
      37940283535957283147790493383286696582099159842122763948555891970476459, 75445702479781427272750846543864801,
      69490809710348678725736597923071784769591275419387514694139338586948360,
      70463328703800545008217672123162676565183935400628861884889913886334520);
  }

  lemma PrimeModulusAt236BitsPart1()
    ensures IsPower(57896044618658097711785492504343953926634992332820282019728792003956564819949, 1999453, 2746,
      24160804902741244633586269723939724439643360798137493381388493804248143150965)
  {
    hide IsPower;
    ZerothPower(57896044618658097711785492504343953926634992332820282019728792003956564819949, 1999453);
    var n := 0;
    n := Next(57896044618658097711785492504343953926634992332820282019728792003956564819949, 1999453, n, 1,
      0, 0, 0, 0, 1, 0, 1, 0,
      1, 1, 1, 1, 1999453, 3997812299209, 31956263930174202291286073952493,
      1021202804374952753695127383157018497111901249829220967220915049);
    n := Next(57896044618658097711785492504343953926634992332820282019728792003956564819949, 1999453, n,
      1021202804374952753695127383157018497111901249829220967220915049,
      1, 0, 1, 1, 1, 0, 1, 0,
      23688623695525785781719515090285588414341365251221620786996452391966559803198,
      44505210014494539217189568745932318516431597198311795811725928911727779282851,
      19557248358116340203654526787263093479105911255866886143109628085359781704148,
      462807323313352388414639860126355136469049527717474949452344249941981120635,
      14603324769193544772664581975418563411077079530761049249086712644680872093767,
      2781645450342175404331081043793771783101266500024313500050241461646773751442,
      5972812865907095606115849614230341161145081719143672415805605749261270494780,
      24160804902741244633586269723939724439643360798137493381388493804248143150965);
  }

  lemma PrimeModulusAt236BitsPart2()
    ensures IsPower(57896044618658097711785492504343953926634992332820282019728792003956564819949, 1999453, 180025542,
      7847425073739159385347087987171553494003214066558914510892549037895763893859)
  {
    hide IsPower;
    PrimeModulusAt236BitsPart1();
    var n := 2746;
    n := Next(57896044618658097711785492504343953926634992332820282019728792003956564819949, 1999453, n,
      24160804902741244633586269723939724439643360798137493381388493804248143150965,
      1, 1, 1, 1, 1, 0, 0, 0,
      57882409720928732382749963552081620449313923577041024307024496460237646280511,
      44472148612062862092287840278916462579746094567071701817615679070005761099895,
      21659907332738041587714168950952392902995734447089417853219207374812976780671,
      16733239814489436135503196963883419373507416637894422336822796263265947487176,
      30886756218622870183262077057155321946295846300825272739260468732770600911267,
      12241030318395186113234515073547642886517851090132746908166414806145068696869,
      38508886091327949799735787090450408976333627867759777005721016654864651661764,
      56452347764876556733547028463442673224260197256697373553848559160904253125418);
    n := Next(57896044618658097711785492504343953926634992332820282019728792003956564819949, 1999453, n,
      56452347764876556733547028463442673224260197256697373553848559160904253125418,
      1, 1, 0, 0, 0, 1, 1, 0,
      44360491716156282323841918014856084774406963152169367726805175214430615287766,
      8440145668452440529633033913424483300290189327930521344825207716057348308861,
      19623877736548699579574326386299248092886359617262052120556565868251586881429,
      2548129923705827725859049430485249482513449743670853369043977334987825631050,
      940296190471535865907464537928721477637929837376190704003389375399592524572,
      13665859493263245001609672746148623604839690888211683465956350382393238495900,
      37843641519443363373304228245702265662868866319734817836692994480268545687160,
      7847425073739159385347087987171553494003214066558914510892549037895763893859);
  }

  lemma PrimeModulusAt236BitsPart3()
    ensures IsPower(57896044618658097711785492504343953926634992332820282019728792003956564819949, 1999453,
      11798153965716, 46803008675650619549579816710649825422680611061448181786617814179067559201146)
  {
    hide IsPower;
    PrimeModulusAt236BitsPart2();
    var n := 180025542;
    n := Next(57896044618658097711785492504343953926634992332820282019728792003956564819949, 1999453, n,
      7847425073739159385347087987171553494003214066558914510892549037895763893859,
      1, 0, 1, 1, 0, 0, 0, 0,
      33532173482359267389488272305892311635299190863486801890133691002398568794804,
      16622834265533856130078903451692245726702829077383311420581713604096138341873,
      39477237935959128140225233395987069955755494082389366807397727310115959317970,
      38290604636236102228053397757236309518500407861986920134594581321218060473269,
      12623805579372472557636894676979869752294714356281250029300942227406408636770,
      11423870005574148388084228869797489724423267634938726831314139385126004161006,
      12365885828092552525724044281634549572056566868793318468704317245095475152368,
      15402253064574983131636293968037053969227152028298254857748095817148704881642);
    n := Next(57896044618658097711785492504343953926634992332820282019728792003956564819949, 1999453, n,
      15402253064574983131636293968037053969227152028298254857748095817148704881642,
      1, 0, 0, 1, 0, 1, 0, 0,
      26892876962192692111878148745892983415517623106326505781971326529494560222842,
      53375122371857744814461057142347873562839667172654838875931269658107735818923,
      24893486021857908407154512771308159850636843407894516015764060907773950776949,
      3590343485362583251741463362030702714896848763090195663841167503500385309020,
      23009597476193184061773478233915174241476482278657410838203068521548757659396,
      56484025819406198692753317124022691722175716069855019153168165217671361802043,
      28445661638143914254238587090583192046047144813333491497562388065450276050518,
      46803008675650619549579816710649825422680611061448181786617814179067559201146);
  }

  lemma PrimeModulusAt236BitsPart4()
    ensures IsPower(57896044618658097711785492504343953926634992332820282019728792003956564819949, 1999453,
      773203818297228559, 19887743116620374273906563225323396546671705825225331612195945085178406703978)
  {
    hide IsPower;
    PrimeModulusAt236BitsPart3();
    var n := 11798153965716;
    n := Next(57896044618658097711785492504343953926634992332820282019728792003956564819949, 1999453, n,
      46803008675650619549579816710649825422680611061448181786617814179067559201146,
      1, 1, 1, 1, 1, 1, 0, 1,
      46577991667032277409788419521871810296794146100638486729422225910886795372357,
      11571259960813987597263843391139583936533851716408354318614896619738788959380,
      34055486730244630880031072904234489749535712875583365689254668390365946700243,
      32688625714749822278170738273879707913404987492442653456672352555917756856209,
      16008288018684337202633074454893450222436021034513867948589140666946489129211,
      312672833272935337852995915983150338568632352083520863724602575668261306205,
      27434953292015177630786980352545245931904984491229019837291509079945600677773,
      18016856193846433951203359609279846629194152083718739087373758860319401260339);
    n := Next(57896044618658097711785492504343953926634992332820282019728792003956564819949, 1999453, n,
      18016856193846433951203359609279846629194152083718739087373758860319401260339,
      0, 0, 0, 0, 1, 1, 1, 1,
      26908733154100309153277514241508399251215039896847486150656991636673597366204,
      15493122738955971074091056485380292075185417055084735781798657667097323399011,
      218106378059625766646425009572330152729099279234214022280303809568990057678,
      52615352047250642540745663107382761519252786847698647622024524341389877513768,
      10999206556335190183408892487039319551426909957258659036523781692486013240224,
      22294730707236013164188229595740211557771188409130783707378769317976801638669,
      35481765101322825029147627909740416666757628557044327889731680649723873017558,
      19887743116620374273906563225323396546671705825225331612195945085178406703978);
  }

  lemma PrimeModulusAt236BitsPart5()
    ensures IsPower(57896044618658097711785492504343953926634992332820282019728792003956564819949, 1999453,
      50672685435927170855618, 29148379365603236466618144865727096152415839838653531866479397795936992871228)
  {
    hide IsPower;
    PrimeModulusAt236BitsPart4();
    var n := 773203818297228559;
    n := Next(57896044618658097711785492504343953926634992332820282019728792003956564819949, 1999453, n,
      19887743116620374273906563225323396546671705825225331612195945085178406703978,
      0, 0, 1, 1, 0, 0, 1, 0,
      34664247783971308669920175506339727168966582583255421716441442450953862334855,
      13692810093582028624926362388388169032868900375849354538422485707430145111565,
      24122797017726141674043324776396680921798800704597058763956075898365220644892,
      51027830136646627697252368269965536877973099623440176528027778260836017639587,
      46779452931209880115222438034927553079766792252743241636269048200085186055298,
      56259897830888134908631144130344825466559328365933054168955523245931333364139,
      34895770241557191828711952893995967294043708025286121516445908877666458536806,
      47538081788854800175619654062129900152933109439701889291439494653901714458542);
    n := Next(57896044618658097711785492504343953926634992332820282019728792003956564819949, 1999453, n,
      47538081788854800175619654062129900152933109439701889291439494653901714458542,
      1, 1, 0, 0, 0, 0, 1, 0,
      33071509359266548148141542561358493054935792173570977070054344055208662572356,
      56244796833636525129365354960149396294815025998936587009867121691860783409572,
      54687961492348179195239394074288965042983094683480579368688494434827121414230,
      4750157893429144747072029937718037985023996152660634908204649048032343333569,
      43961327486519236106810113944954017835445730128861661896056762329562534708525,
      25829114213982042864331492894140806161602665171492952012440991966985066507533,
      14764133897299265350484722959896980709611683598821001078701088707159718747766,
      29148379365603236466618144865727096152415839838653531866479397795936992871228);
  }

  lemma PrimeModulusAt236BitsPart6()
    ensures IsPower(57896044618658097711785492504343953926634992332820282019728792003956564819949, 1999453,
      3320885112728923069193833643, 56009388425768568378460592916544475351560236554174229004295272136613932909823)
  {
    hide IsPower;
    PrimeModulusAt236BitsPart5();
    var n := 50672685435927170855618;
    n := Next(57896044618658097711785492504343953926634992332820282019728792003956564819949, 1999453, n,
      29148379365603236466618144865727096152415839838653531866479397795936992871228,
      1, 1, 0, 0, 1, 1, 0, 0,
      45461173772557786979046937035687245500637277578756438585052984843650789767633,
      57186550543345309662213123660241542778750482725110411359196464145607343034247,
      23103135335876727489932245605211138716099233748374531045299667662466268295930,
      39318735315205572033326228375733006099219778520791786749181238585430671073182,
      2966660471821339580858156086982472485204716737698631099678939324723575349732,
      16873651287510255811673398741754043210862625691416083174386137370422910345971,
      9834892191891465691111759029543404140674105431541456296192491279399923052511,
      638800387767639841083272493590367643310635927801984158889622332859900841344);
    n := Next(57896044618658097711785492504343953926634992332820282019728792003956564819949, 1999453, n,
      638800387767639841083272493590367643310635927801984158889622332859900841344,
      1, 0, 1, 0, 1, 0, 1, 1,
      41161060162401070107832081329584661622857242769183813525778268666319246165569,
      23824989331582968403634132312065483105541160569305700544486311396905853995293,
      57438654970991375196427033200194810049706103711069798259946831155472071471645,
      29924873270696495839660645509443627616158267257345792620583174608217949198587,
      28953885998216392386123703675649452447663560859733403547607165060304273506255,
      4603260872861928088617536488813540033623746428568530364945236674399251206096,
      45338848250440601128756736045886274308051785363526743283268604348505666996412,
      56009388425768568378460592916544475351560236554174229004295272136613932909823);
  }

  lemma PrimeModulusAt236BitsPart7()
    ensures IsPower(57896044618658097711785492504343953926634992332820282019728792003956564819949, 1999453,
      217637526747802702262687081671558,
      17667658713978539887008355629074750184737435286150968951094584334001505207218)
  {
    hide IsPower;
    PrimeModulusAt236BitsPart6();
    var n := 3320885112728923069193833643;
    n := Next(57896044618658097711785492504343953926634992332820282019728792003956564819949, 1999453, n,
      56009388425768568378460592916544475351560236554174229004295272136613932909823,
      1, 0, 1, 0, 1, 0, 1, 1,
      24084960755255174362420209945799403129484755977247191784028428187416124905828,
      50823142156330579278450606688872897729625535983202469375137177907376540045663,
      26444262354646907849683068927272735604872677735940080280360276247174626458558,
      20455030731662608154123362566356365949951257843234018551663936149095315118656,
      40368632213529676320818237943627788866982323093457818337659200349250339698057,
      24078713970222774566404302355766613747527550753642473758153575484935990052654,
      9722409306062966301970057434317409210683278505143344122412362862631895855597,
      5854708172720721800146697587015371901894175646068224113941365291768442930245);
    n := Next(57896044618658097711785492504343953926634992332820282019728792003956564819949, 1999453, n,
      5854708172720721800146697587015371901894175646068224113941365291768442930245,
      1, 0, 0, 0, 0, 1, 1, 0,
      44192018162330949987630626144537230919518925688998499662836937205151952648024,
      45155862141481298385685166670098414727554115693319256077131877375878209473114,
      57655898916238775966647561478471637830000800630691509752407300623423592228160,
      37673324706369652953117377090553887742299649368334423465848983288819916014998,
      18500377985699989800541045420339538018737388777489484566484602934609137762470,
      52140759055100044538140098926079163025210200525726658640263625121202975176087,
      14260110278720146081231847188006323009229414269008118933412346454157446632707,
      17667658713978539887008355629074750184737435286150968951094584334001505207218);
  }

  lemma PrimeModulusAt236BitsPart8()
    ensures IsPower(57896044618658097711785492504343953926634992332820282019728792003956564819949, 1999453,
      14263092952943997895487460584427244990,
      42409394340966612768153107587454722082903822305029705526061458849218966407425)
  {
    hide IsPower;
    PrimeModulusAt236BitsPart7();
    var n := 217637526747802702262687081671558;
    n := Next(57896044618658097711785492504343953926634992332820282019728792003956564819949, 1999453, n,
      17667658713978539887008355629074750184737435286150968951094584334001505207218,
      0, 1, 0, 0, 1, 1, 0, 1,
      35724063722829419538733133837129794856020018867495335514261458621789740029176,
      11743261090561626032989320862067593971172837684168523134277735512115378350908,
      29508622732443904097650896167430322462568475767958807233578493984337764845772,
      51883022771225601512167446555219253951504905746538054963580501316905865197048,
      47921531671829003730437116807467025978163820505295392094136871937115341483805,
      1861278718582181888585642964447947473445922909570117257239372774779383697662,
      45471760310393107438497387560305731414078408296321835230808197540171234127999,
      6065145233985005040586048267036129401435447281632202843737611675614194902494);
    n := Next(57896044618658097711785492504343953926634992332820282019728792003956564819949, 1999453, n,
      6065145233985005040586048267036129401435447281632202843737611675614194902494,
      1, 0, 1, 1, 1, 1, 1, 0,
      21557726203785258915108532452395869729002203974935275671376609342576402936266,
      41486786887785392898695285718371707791445419141488638565291567240825435172919,
      39410232421086898960478426107152916573822298853390118304646640835902715648338,
      34014845722319207744501493194309246910223853246972110367904420953222131175633,
      5335438533324841642528717248205311587594315014824438569961502746862149418234,
      24868339871534058629372055894568210520400323650446960729765869515186941662082,
      39273215855908331591753516211766630406447004919767188999624340328482748046613,
      42409394340966612768153107587454722082903822305029705526061458849218966407425);
  }

  lemma PrimeModulusAt236BitsPart9()
    ensures IsPower(57896044618658097711785492504343953926634992332820282019728792003956564819949, 1999453,
      934746059764137846078666216861023927717273,
      11720188213535967162662238078746801746639036954660879060964290778540787571219)
  {
    hide IsPower;
    PrimeModulusAt236BitsPart8();
    var n := 14263092952943997895487460584427244990;
    n := Next(57896044618658097711785492504343953926634992332820282019728792003956564819949, 1999453, n,
      42409394340966612768153107587454722082903822305029705526061458849218966407425,
      1, 1, 0, 0, 1, 1, 0, 1,
      49574532653874878601444302562996827449637979970509563660231534871703442087033,
      1232904725067065163659418064934547234435559910545756896082903830444341642869,
      2827987172350272304798393892741693759778644742767508450610077443058971513451,
      26374529189740836453002188220281693302951118159358940227028357300474903351972,
      3109070856638257255009232627503289871874609488960889443711431682508273456041,
      55269186274416840181949225383408937677094688779363715821698050779830471573045,
      44635191805131229218718672618851571206460604263080471948187747026445078956815,
      19088819057947473918241294645510663642868870650422268556510266720438067597296);
    n := Next(57896044618658097711785492504343953926634992332820282019728792003956564819949, 1999453, n,
      19088819057947473918241294645510663642868870650422268556510266720438067597296,
      1, 0, 0, 1, 1, 0, 0, 1,
      38315410174792976452657811168224480428014604986929063881896881986989020802144,
      29442502219205440363109068078197297015006484097531206748377296403775655086947,
      6366252272919619262252953691112152357561774988920434114451260519505986747981,
      3044998874122632081133263003078872491280379113248993739936335866646682357905,
      38629778594054053821855305091621909960291666829251356789527466895360098206139,
      33327129919961812526841338589614288915513078623013124567889998957914744976842,
      46800161501798240504676064201951070004399348209281095992110218488949324685415,
      11720188213535967162662238078746801746639036954660879060964290778540787571219);
  }

  lemma PrimeModulusAt236BitsPart10()
    ensures IsPower(57896044618658097711785492504343953926634992332820282019728792003956564819949, 1999453,
      61259517772702537880611469188204064126879208518,
      2273939712015688869661511792859472023939644887509593138992025412052193311710)
  {
    hide IsPower;
    PrimeModulusAt236BitsPart9();
    var n := 934746059764137846078666216861023927717273;
    n := Next(57896044618658097711785492504343953926634992332820282019728792003956564819949, 1999453, n,
      11720188213535967162662238078746801746639036954660879060964290778540787571219,
      0, 0, 0, 1, 0, 1, 0, 0,
      32317850698819715088930393385843953081764934003478786230188756049244251227903,
      52799169871331930277468457971642491597490812255939489633816463607140998481710,
      22401117993029080752690474051241564637975020911679063855226644473603100480536,
      5791607189091910934726168638603884630893021821950218587680035779717299072086,
      47863104373152695769562522827915110073710046044928701787901355217035103077411,
      26992341177499191487437966509945923576255706017101093983860222111033215213305,
      4338858588327821438587941308397882648291105393835248684157260051125232947278,
      3290994686308720031602504847993079380411250168915834147464715380146080750675);
    n := Next(57896044618658097711785492504343953926634992332820282019728792003956564819949, 1999453, n,
      3290994686308720031602504847993079380411250168915834147464715380146080750675,
      0, 1, 0, 0, 0, 1, 1, 0,
      45631829246282123439088760444445352808239457686178924453904948886685598451698,
      14726868383911652696711086085602418185436323209762307232628823063833502649463,
      38891533690287797638231268620830607454806602901284638279874999942967409205558,
      51834251430645396453498385402528366026274572337607064378112000111603659142153,
      28234326335150973247675084680141909207176483160472551987667632803959887153149,
      15361664855545608684279613956164567651443570169753511148200140416927054937118,
      46229032383495485374274739657284246079700722164673608659125779215314726622269,
      2273939712015688869661511792859472023939644887509593138992025412052193311710);
  }

  lemma PrimeModulusAt236BitsPart11()
    ensures IsPower(57896044618658097711785492504343953926634992332820282019728792003956564819949, 1999453,
      4014703756751833522543753244718141546619155809466817,
      21455440321958668756579424962767916217821365219247780151174413597069865714404)
  {
    hide IsPower;
    PrimeModulusAt236BitsPart10();
    var n := 61259517772702537880611469188204064126879208518;
    n := Next(57896044618658097711785492504343953926634992332820282019728792003956564819949, 1999453, n,
      2273939712015688869661511792859472023939644887509593138992025412052193311710,
      0, 1, 1, 1, 1, 0, 0, 1,
      17201809548503170356274513209531486816478324474362073326010938929975736616439,
      33323686937661388638780443465456873662684999199099452740178495288153637893554,
      38102604466246185445507899442638076834122496716882826642196735329418036679305,
      3769250342745892707632530486466863374071477751534555444799010676482629059557,
      35929142499812423853195868792038092229491372941862873218317244107999058010520,
      41513045241951514375097640527023369993608325184874425008854060406277365857988,
      48693613024299782228508313425718946407446575863962700583332667835269108813776,
      7254786685619396623004808158270590943868098640753767859729864074689133312382);
    n := Next(57896044618658097711785492504343953926634992332820282019728792003956564819949, 1999453, n,
      7254786685619396623004808158270590943868098640753767859729864074689133312382,
      1, 1, 0, 0, 0, 0, 0, 1,
      34215190882397751336918647299422027548186469331535793919736479967585950959286,
      6531313693137165478894569570609673363547481350569385783429859633669286347617,
      56263473281432858354935094184285671859054643055550015192209881175993046334524,
      3009466997442069874480527402283739773348709652741538114861582118486852783169,
      18821244213464107653017400770402354961354308314756737479988473326046571885927,
      36376585042632279502458203171358707952223222988346421703257918419535262327751,
      51950372290949322284703237195671952061579238095561093537977039813031586530459,
      21455440321958668756579424962767916217821365219247780151174413597069865714404);
  }

  lemma PrimeModulusAt236BitsPart12()
    ensures IsPower(57896044618658097711785492504343953926634992332820282019728792003956564819949, 1999453,
      263107625402488161733427412645848124399232995129217363448,
      55907247810426224229049684203925571108920462729085762122507794095108044354652)
  {
    hide IsPower;
    PrimeModulusAt236BitsPart11();
    var n := 4014703756751833522543753244718141546619155809466817;
    n := Next(57896044618658097711785492504343953926634992332820282019728792003956564819949, 1999453, n,
      21455440321958668756579424962767916217821365219247780151174413597069865714404,
      1, 0, 1, 0, 1, 1, 0, 1,
      24920436724258440661741948044156547608444225193911702072737600572812428394153,
      14229183514144635018089443509575779270240286644751468068083562398517901147871,
      5375077765814664806217046021838895222028062188375540037763275551598198673864,
      9124793717291621081451384170452076277771251235088720110607927992383242405578,
      15128369188794081281695034321143028971070094086174682390724934231478567503528,
      27311998725818165524434196681297906873288891555583797949349216288940205432488,
      52616255829405020911803156799173513013561356087325572901509803786391046056291,
      44888154828311915264428844732069348730427337872587200717049908994308547708105);
    n := Next(57896044618658097711785492504343953926634992332820282019728792003956564819949, 1999453, n,
      44888154828311915264428844732069348730427337872587200717049908994308547708105,
      1, 1, 1, 1, 1, 0, 0, 0,
      7186201376485031860484166418512849651114759648334076163558982524799972497133,
      10351556420341817475237882346700502021145307592614936661070848912522666732346,
      56709393603846208560224724618633056581750544963802505821685984531753918820073,
      15816942063828478706590935135169588070925053282176257779204686153834285932320,
      28022417760524435964702067906571561938591700608339944750505347096915712674908,
      20078503006814215970673865411558326664959676420617960313052017775118074002996,
      56666902622197644444489479616634463622734621655696726512147709994033083833887,
      55907247810426224229049684203925571108920462729085762122507794095108044354652);
  }

  lemma PrimeModulusAt236BitsPart13()
    ensures IsPower(57896044618658097711785492504343953926634992332820282019728792003956564819949, 1999453,
      17243021338377464167361898915158302680628133568788389130929289,
      46753772707057759737302108150317087600536571591109496817075788837014516669375)
  {
    hide IsPower;
    PrimeModulusAt236BitsPart12();
    var n := 263107625402488161733427412645848124399232995129217363448;
    n := Next(57896044618658097711785492504343953926634992332820282019728792003956564819949, 1999453, n,
      55907247810426224229049684203925571108920462729085762122507794095108044354652,
      0, 0, 0, 0, 0, 1, 0, 0,
      13834009297331756963284964065750578049190290290955816479612221362491667697675,
      53717037444997398464421565273879508870307275103362856108011537599872924636944,
      29856954159501965452260602667375681793022241093151265234875024353207629587982,
      51161273020064619914753412900400993846232639895331963596453375241927040840560,
      57034294972978363495691494555786684137106259222480260256654396804127783981384,
      15276811061643505452360598569310091441980988478239736519917441559096820262187,
      24269292317504639529991142340412735740312061018912331415412393028401945046497,
      45828970137853863389140701670792028753703192343036053437065575714893529988260);
    n := Next(57896044618658097711785492504343953926634992332820282019728792003956564819949, 1999453, n,
      45828970137853863389140701670792028753703192343036053437065575714893529988260,
      1, 0, 0, 0, 1, 0, 0, 1,
      10080513361026686986179603518048842395770679593408042267077798374351629045043,
      56185829037778860935266460379402738295017641466589129714215956723940690753271,
      49219397173263806173892271164258439154886509392758332308950567709734475974170,
      52809358339100909023399688566252930331167333332231135344145102958364619554645,
      41259440906112451938558460190008899957009498114366557574274564901355945557998,
      24616859525991401135357422219725920850937271583155142823586905427316585468050,
      3260188384609440140432372688449874079863362285729336746427514624837963172235,
      46753772707057759737302108150317087600536571591109496817075788837014516669375);
  }

  lemma PrimeModulusAt236BitsPart14()
    ensures IsPower(57896044618658097711785492504343953926634992332820282019728792003956564819949, 1999453,
      1130038646431905491672229407303814524477645361564115870084581920690,
      51422887682507987158791724613365379407860723670119826114879582095580090929594)
  {
    hide IsPower;
    PrimeModulusAt236BitsPart13();
    var n := 17243021338377464167361898915158302680628133568788389130929289;
    n := Next(57896044618658097711785492504343953926634992332820282019728792003956564819949, 1999453, n,
      46753772707057759737302108150317087600536571591109496817075788837014516669375,
      1, 0, 0, 0, 1, 1, 1, 1,
      45839818192793362855253680967577818389769397601210878333380077756482103149275,
      25043388115183682009829277362299293542570461447118646244045920733108953316343,
      34162781473405486686942063185696165718455837018955768013948039465607676237143,
      42336370491474818575198263206680617508959011788078721192741156626914524432934,
      32011635201275817070709520574442516133674923454860171874678582253819567163745,
      57103065637049198578255636687705993540183383258974676671939161562229152876248,
      39076906102354168662746632602575967847222279277176241774281607656649359607774,
      42072324236312976947779392374942455322519420639750873507907028432085842666159);
    n := Next(57896044618658097711785492504343953926634992332820282019728792003956564819949, 1999453, n,
      42072324236312976947779392374942455322519420639750873507907028432085842666159,
      1, 0, 1, 1, 0, 0, 1, 0,
      38345498765500395313602370507553724088280479560816289623966807987021201439626,
      37417951491401266595854774119792246873643188524309019401467030607164971268574,
      24764031996066589938366290168245817811234931145142660996419730022295446997959,
      57211751023862759046801602937591395067636686120830720606214386883766530782290,
      41276226316483901033576573533295416581843077434695100930668217725451173527827,
      52355962567706862776663778988861999547614449556799361993381016320075019393447,
      44832667863646021475372379699822336755410739924229317024682822645674067276210,
      51422887682507987158791724613365379407860723670119826114879582095580090929594);
  }

  lemma PrimeModulusAt236BitsPart15()
    ensures IsPower(57896044618658097711785492504343953926634992332820282019728792003956564819949, 1999453,
      74058212732561358302231226437062788676166966415465897661863160754340907, 1)
  {
    hide IsPower;
    PrimeModulusAt236BitsPart14();
    var n := 1130038646431905491672229407303814524477645361564115870084581920690;
    n := Next(57896044618658097711785492504343953926634992332820282019728792003956564819949, 1999453, n,
      51422887682507987158791724613365379407860723670119826114879582095580090929594,
      0, 0, 0, 0, 0, 1, 0, 0,
      37806920897206365638918063747450058369637752358405280048861569636470857388826,
      57881704232504836411602678190836513525817478207976380140654907048455143028678,
      17642677317727344331546791022287438464697873857119510951516196623141964899473,
      53320911330957748968677480427396023827894331795486021104878995142281100387579,
      10813321169329825180376041759394882967482938413405786975318566709860649045663,
      7596052024623176069786686750497313151994287643260892106384291374499437072776,
      29838539996218328330263433626261946102620716506704683916881893144961167198556,
      41872794843461556260051050712617620532303004866943356556003256217707603504420);
    n := Next(57896044618658097711785492504343953926634992332820282019728792003956564819949, 1999453, n,
      41872794843461556260051050712617620532303004866943356556003256217707603504420,
      0, 0, 1, 0, 1, 0, 1, 1,
      35096108028741463744299851702509306584538966002454376994396892865118391323594,
      53261373725668992142404263628954808590698100325324285247098816158456327924407,
      53844890701549080292220159417023856014102781238662529127601102010364370568955,
      42255510117250351180911757057076597280126624100694238601272355242577859920601,
      36177514436532049725269447685760694232690247402452782264003070257491095637467,
      50119953958118831985220213397310314106665551213500574642254158418623928317328,
      29360037159948547861516142691123608058498940551915954738220940337342791212802, 1);
  }

  lemma PrimeModulusAt236Bits()
    ensures HasOrder(57896044618658097711785492504343953926634992332820282019728792003956564819949,
      74058212732561358302231226437062788676166966415465897661863160754340907, 1999453,
      43307773260665248896171545686355313497245315135165197794612338610366044534704)
  {
    hide Exp, Divides;
    PrimeModulusAt236BitsPart15();
    HasInverse(57896044618658097711785492504343953926634992332820282019728792003956564819949, 1999453,
      43307773260665248896171545686355313497245315135165197794612338610366044534704, 1495643);
  }

  lemma PrimeModulus()
    ensures IsPrime(57896044618658097711785492504343953926634992332820282019728792003956564819949)
  {
    Prime236Bits();
    PrimeModulusAt236Bits();
    hide IsPrime, HasOrder;
    PrimeByOne(57896044618658097711785492504343953926634992332820282019728792003956564819949,
      74058212732561358302231226437062788676166966415465897661863160754340907, 1999453,
      43307773260665248896171545686355313497245315135165197794612338610366044534704);
  }
}
