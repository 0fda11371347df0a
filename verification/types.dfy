/**
 * The mount-point record shared by the rule compiler (config/config.go) and
 * the older host-keyed compiler (types/mappings.go); both Go types have the
 * same two string fields.
 */
module Types {

  /**
   * A compiled mapping. Given the mapping `cool/stuff` -> `index.docker.io/flavio`,
   * `target` is `cool/stuff` (the prefix clients use) and `source` is
   * `flavio` (the repository prefix on the upstream registry).
   */
  datatype MountPoint = MountPoint(source: string, target: string)
}
