/**
 * The plugin exists in two near-identical copies, one in package
 * `org.kie.maven.codeformatter.plugin` and one in `net.cardosi.maven.codeformatter.plugin`.
 * Operations whose behaviour differs between them take a `Copy` to say which one is meant.
 */
module Copies {

  datatype Copy = OrgKie | NetCardosi
}
