/** Distribution codenames. A codename is the text read from the release
    descriptor, exactly as read: it is neither trimmed nor validated. */
module Distribution {

  /** The two releases that still name the interpreter `python` rather
      than `python3`; every other codename, unknown and empty included,
      follows the current convention. */
  predicate IsLegacyCodename(codename: string) {
    codename == "bionic" || codename == "xenial"
  }
}
