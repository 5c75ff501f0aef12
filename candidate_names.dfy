/** The candidate pool as shipped: the `;`-separated string of names and the names it splits into. */
module CandidateNames {
  import opened JsString

  /** The candidate names as one string, separated by `;`. It is the shipped string, written here
      field by field.

      The 29 names are spelled out several times in this module: as this string, as the list
      `SHIPPED_NAMES`, as a chain of one-name appends, in three blocks of ten, and in the steps of
      `JoinShippedNames`. The values agree (the lemmas below prove it); each spelling exists only
      because the verifier evaluates that shape cheaply, where evaluating one long literal against
      another in a single proof would not fit its resource budget. */
  const RAW_NAMES: string :=
      "唐启武" + ";" + "曹朋辉" + ";" + "杜秋霞" + ";" + "范栋" + ";" + "胡可斌" + ";" + "胡苗" + ";" +
      "胡小龙" + ";" + "康林" + ";" + "康雅伟" + ";" + "廖静怡" + ";" + "林秀萍" + ";" + "刘玉" + ";" +
      "李燕敏" + ";" + "吕明萍" + ";" + "饶小珊" + ";" + "舒坦" + ";" + "唐开华" + ";" + "王德祥" + ";" +
      "王泽巨" + ";" + "吴邦正" + ";" + "熊启强" + ";" + "杨艳" + ";" + "叶峰" + ";" + "叶鑫伟" + ";" +
      "余小红" + ";" + "曾静兰" + ";" + "曾振平" + ";" + "张累" + ";" + "周新乐"

  /** The 29 fields of the shipped string. */
  ghost const SHIPPED_NAMES: seq<string> :=
      ["唐启武", "曹朋辉", "杜秋霞", "范栋", "胡可斌", "胡苗", "胡小龙", "康林", "康雅伟", "廖静怡",
      "林秀萍", "刘玉", "李燕敏", "吕明萍", "饶小珊", "舒坦", "唐开华", "王德祥", "王泽巨", "吴邦正",
      "熊启强", "杨艳", "叶峰", "叶鑫伟", "余小红", "曾静兰", "曾振平", "张累", "周新乐"]

  /** The same list built one name at a time, the way the joining proof below walks along it. */
  ghost const SHIPPED_NAMES_APPENDED: seq<string> :=
      ["唐启武"] + ["曹朋辉"] + ["杜秋霞"] + ["范栋"] + ["胡可斌"] + ["胡苗"] + ["胡小龙"] + ["康林"] +
      ["康雅伟"] + ["廖静怡"] + ["林秀萍"] + ["刘玉"] + ["李燕敏"] + ["吕明萍"] + ["饶小珊"] + ["舒坦"] +
      ["唐开华"] + ["王德祥"] + ["王泽巨"] + ["吴邦正"] + ["熊启强"] + ["杨艳"] + ["叶峰"] + ["叶鑫伟"] +
      ["余小红"] + ["曾静兰"] + ["曾振平"] + ["张累"] + ["周新乐"]

  /** The shipped list in three blocks of at most ten names, so that distinctness can be shown
      block by block. */
  ghost const NAMES_BLOCK_1: seq<string> :=
      ["唐启武", "曹朋辉", "杜秋霞", "范栋", "胡可斌", "胡苗", "胡小龙", "康林", "康雅伟", "廖静怡"]
  ghost const NAMES_BLOCK_2: seq<string> :=
      ["林秀萍", "刘玉", "李燕敏", "吕明萍", "饶小珊", "舒坦", "唐开华", "王德祥", "王泽巨", "吴邦正"]
  ghost const NAMES_BLOCK_3: seq<string> :=
      ["熊启强", "杨艳", "叶峰", "叶鑫伟", "余小红", "曾静兰", "曾振平", "张累", "周新乐"]

  /** The three blocks make up the shipped list. */
  lemma ShippedNamesBlocks()
    ensures SHIPPED_NAMES == NAMES_BLOCK_1 + NAMES_BLOCK_2 + NAMES_BLOCK_3
  {
  }

  /** The two spellings of the shipped list agree. */
  lemma ShippedNamesAppended()
    ensures SHIPPED_NAMES_APPENDED == SHIPPED_NAMES
  {
  }

  /** The shipped string is the 29 names joined with `;`. */
  lemma JoinShippedNames()
    ensures Join(SHIPPED_NAMES, ';') == RAW_NAMES
  {
    var names := ["唐启武"];
    JoinSnoc(names, "曹朋辉", ';');
    names := names + ["曹朋辉"];
    JoinSnoc(names, "杜秋霞", ';');
    names := names + ["杜秋霞"];
    JoinSnoc(names, "范栋", ';');
    names := names + ["范栋"];
    JoinSnoc(names, "胡可斌", ';');
    names := names + ["胡可斌"];
    JoinSnoc(names, "胡苗", ';');
    names := names + ["胡苗"];
    JoinSnoc(names, "胡小龙", ';');
    names := names + ["胡小龙"];
    JoinSnoc(names, "康林", ';');
    names := names + ["康林"];
    JoinSnoc(names, "康雅伟", ';');
    names := names + ["康雅伟"];
    JoinSnoc(names, "廖静怡", ';');
    names := names + ["廖静怡"];
    JoinSnoc(names, "林秀萍", ';');
    names := names + ["林秀萍"];
    JoinSnoc(names, "刘玉", ';');
    names := names + ["刘玉"];
    JoinSnoc(names, "李燕敏", ';');
    names := names + ["李燕敏"];
    JoinSnoc(names, "吕明萍", ';');
    names := names + ["吕明萍"];
    JoinSnoc(names, "饶小珊", ';');
    names := names + ["饶小珊"];
    JoinSnoc(names, "舒坦", ';');
    names := names + ["舒坦"];
    JoinSnoc(names, "唐开华", ';');
    names := names + ["唐开华"];
    JoinSnoc(names, "王德祥", ';');
    names := names + ["王德祥"];
    JoinSnoc(names, "王泽巨", ';');
    names := names + ["王泽巨"];
    JoinSnoc(names, "吴邦正", ';');
    names := names + ["吴邦正"];
    JoinSnoc(names, "熊启强", ';');
    names := names + ["熊启强"];
    JoinSnoc(names, "杨艳", ';');
    names := names + ["杨艳"];
    JoinSnoc(names, "叶峰", ';');
    names := names + ["叶峰"];
    JoinSnoc(names, "叶鑫伟", ';');
    names := names + ["叶鑫伟"];
    JoinSnoc(names, "余小红", ';');
    names := names + ["余小红"];
    JoinSnoc(names, "曾静兰", ';');
    names := names + ["曾静兰"];
    JoinSnoc(names, "曾振平", ';');
    names := names + ["曾振平"];
    JoinSnoc(names, "张累", ';');
    names := names + ["张累"];
    JoinSnoc(names, "周新乐", ';');
    names := names + ["周新乐"];
    ShippedNamesAppended();
  }

  /** Every shipped name has a character that is not white space and holds no `;`. */
  lemma ShippedNamesWellFormed()
    ensures forall i :: 0 <= i < |SHIPPED_NAMES| ==> !IsBlank(SHIPPED_NAMES[i]) && ';' !in SHIPPED_NAMES[i]
  {
    forall i | 0 <= i < |SHIPPED_NAMES| ensures ';' !in SHIPPED_NAMES[i] && !IsBlank(SHIPPED_NAMES[i]) {
      assert !IsWhiteSpace(SHIPPED_NAMES[i][0]);
    }
  }

  /** The shipped string splits at `;` into exactly the 29 names. */
  lemma SplitShippedNames()
    ensures Split(RAW_NAMES, ';') == SHIPPED_NAMES
  {
    JoinShippedNames();
    ShippedNamesWellFormed();
    SplitJoin(SHIPPED_NAMES, ';');
  }
}
